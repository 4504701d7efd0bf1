/** EVOLVE-BLOCK regions of a candidate (libreevolve/core/candidate.py): reading the
    markers line by line, taking a file apart into skeleton and block contents, and the
    fact that reading and writing are inverse to each other. */
module EvolveBlocks {
  import opened Text

  const START := "# EVOLVE-BLOCK-START"
  const END := "# EVOLVE-BLOCK-END"

  // ----- lines

  /** Index just after the first LF, or the length of the text. */
  function LineEnd(s: string): (n: nat)
    requires s != ""
    ensures 1 <= n <= |s|
    ensures forall i :: 0 <= i < n - 1 ==> s[i] != LF
    ensures n < |s| ==> s[n - 1] == LF
  {
    if s[0] == LF || |s| == 1 then 1 else 1 + LineEnd(s[1..])
  }

  /** `s.splitlines(keepends=True)` for texts whose only line boundary is LF. */
  function SplitLines(s: string): seq<string> {
    if s == "" then [] else [s[..LineEnd(s)]] + SplitLines(s[LineEnd(s)..])
  }

  function Flatten(lines: seq<string>): string {
    if lines == [] then "" else lines[0] + Flatten(lines[1..])
  }

  predicate IsLine(s: string) {
    s != "" && forall i :: 0 <= i < |s| - 1 ==> s[i] != LF
  }

  /** The text ends at a line boundary. */
  predicate Terminated(s: string) {
    s != "" ==> s[|s| - 1] == LF
  }

  lemma {:induction false} FlattenSplit(s: string)
    ensures Flatten(SplitLines(s)) == s
    ensures forall l <- SplitLines(s) :: IsLine(l)
  {
    if s != "" {
      hide IsLine, LineEnd, SplitLines, Flatten;
      SplitFirst(s);
      var line, rest := s[..LineEnd(s)], s[LineEnd(s)..];
      FlattenSplit(rest);
      FlattenFirst(line, SplitLines(rest));
      assert line + rest == s;
    }
  }

  lemma {:induction false} SplitFirst(s: string)
    requires s != ""
    ensures SplitLines(s) == [s[..LineEnd(s)]] + SplitLines(s[LineEnd(s)..]) && IsLine(s[..LineEnd(s)])
  {
    hide LineEnd;
  }

  lemma {:induction false} FlattenFirst(line: string, rest: seq<string>)
    ensures Flatten([line] + rest) == line + Flatten(rest)
  {
    assert ([line] + rest)[1..] == rest;
  }

  lemma {:induction false} SplitOneLine(line: string, rest: string)
    requires IsLine(line) && (Terminated(line) || rest == "")
    ensures SplitLines(line + rest) == [line] + SplitLines(rest)
  {
    var n := LineEnd(line + rest);
    assert forall i :: 0 <= i < |line| ==> (line + rest)[i] == line[i];
    assert n == |line|;
    assert (line + rest)[..n] == line && (line + rest)[n..] == rest;
  }

  /** Splitting distributes over concatenation at a line boundary. */
  lemma {:induction false} SplitConcat(a: string, b: string)
    requires Terminated(a)
    ensures SplitLines(a + b) == SplitLines(a) + SplitLines(b)
    decreases |a|
  {
    if a == "" {
      assert a + b == b;
    } else {
      var line, rest := FirstLine(a);
      SplitConcat(rest, b);
      hide *;
      SplitOneLine(line, rest + b);
      SplitOneLine(line, rest);
      ConcatAssociates(line, rest, b);
      ConcatAssociates([line], SplitLines(rest), SplitLines(b));
    }
  }

  lemma ConcatAssociates<T>(a: seq<T>, b: seq<T>, c: seq<T>)
    ensures a + b + c == a + (b + c)
  {
  }

  lemma {:induction false} FirstLine(s: string) returns (line: string, rest: string)
    requires s != ""
    ensures s == line + rest && IsLine(line) && (Terminated(line) || rest == "") && |rest| < |s|
    ensures Terminated(s) ==> Terminated(line) && Terminated(rest)
  {
    line, rest := s[..LineEnd(s)], s[LineEnd(s)..];
    assert rest != "" ==> rest[|rest| - 1] == s[|s| - 1];
  }

  // ----- markers

  datatype Marker = NoMarker | StartMarker(rawName: string) | BadStart | EndMarker | BadEnd

  /** What a line says once white space around it is removed. */
  function MarkerOfText(t: string): Marker {
    if START <= t then
      if t == START || t[|START|] == ' ' || t[|START|] == '\t' then StartMarker(Strip(t[|START|..])) else BadStart
    else if END <= t then
      if t == END then EndMarker else BadEnd
    else NoMarker
  }

  function MarkerOf(line: string): Marker {
    MarkerOfText(Strip(line))
  }

  predicate AllPlain(lines: seq<string>) {
    forall l <- lines :: MarkerOf(l) == NoMarker
  }

  predicate MarkerFree(s: string) {
    AllPlain(SplitLines(s))
  }

  lemma {:induction false} MarkerFreeConcat(a: string, b: string)
    requires Terminated(a)
    ensures MarkerFree(a + b) <==> MarkerFree(a) && MarkerFree(b)
  {
    SplitConcat(a, b);
  }

  lemma {:induction false} StripLineEnd(s: string)
    ensures Strip(s + "\n") == Strip(s)
  {
    NewlineIsSpace();
    hide IsSpace, IsBlank;
    StripLeftExtends(s);
    var l := StripLeft(s);
    if l != "" {
      assert (l + "\n")[..|l|] == l;
    }
  }

  lemma {:induction false} StripLeftExtends(s: string)
    ensures StripLeft(s + "\n") == if StripLeft(s) == "" then "" else StripLeft(s) + "\n"
  {
    NewlineIsSpace();
    hide IsSpace, IsBlank;
    if s == "" {
      assert "\n"[1..] == "";
    } else if IsSpace(s[0]) {
      StripLeftExtends(s[1..]);
      assert (s + "\n")[1..] == s[1..] + "\n";
    }
  }

  lemma NewlineIsSpace()
    ensures IsSpace('\n')
  {
  }

  /** A text is free of marker lines exactly when it is with its line end added. */
  lemma {:induction false} MarkerFreeLineEnd(s: string)
    ensures MarkerFree(s + "\n") <==> MarkerFree(s)
    decreases |s|
  {
    hide MarkerOfText, StripLeft, StripRight, LineEnd;
    if s == "" {
      OneLineMarker("\n");
      StripLineEnd("");
      EmptyIsPlain();
      assert "" + "\n" == "\n";
    } else {
      hide SplitLines, AllPlain;
      var line, rest := FirstLine(s);
      if rest == "" && !Terminated(line) {
        assert s == line;
        OneLineMarker(line);
        OneLineMarker(line + "\n");
        StripLineEnd(line);
      } else {
        MarkerFreeLineEnd(rest);
        MarkerFreeConcat(line, rest);
        MarkerFreeConcat(line, rest + "\n");
        assert s + "\n" == line + (rest + "\n");
      }
    }
  }

  lemma EmptyIsPlain()
    ensures MarkerOf("") == NoMarker
  {
  }

  lemma {:induction false} OneLineMarker(line: string)
    requires IsLine(line)
    ensures MarkerFree(line) <==> MarkerOf(line) == NoMarker
  {
    SplitOneLine(line, "");
    assert line + "" == line;
  }

  // ----- names

  predicate IsNameChar(c: char) {
    'A' <= c <= 'Z' || 'a' <= c <= 'z' || '0' <= c <= '9' || c in "_.:-"
  }

  predicate ValidName(name: string) {
    name != "" && forall c <- name :: IsNameChar(c)
  }

  function Digits(n: nat): string {
    if n < 10 then ["0123456789"[n]] else Digits(n / 10) + ["0123456789"[n % 10]]
  }

  /** An unnamed block is numbered by the blocks closed before it. */
  function NameAt(rawName: string, index: nat): string {
    if rawName == "" then "block_" + Digits(index) else rawName
  }

  // ----- reading

  /** A block with the skeleton text before it: plain lines, the START line, the
      content, the LF that separates a non-empty region from the END line, the END line. */
  datatype Block = Block(
    before: string, startLine: string, name: string, content: string, newline: string, endLine: string)
  {
    function Text(): string {
      before + startLine + content + newline + endLine
    }
  }

  datatype ParseError =
    | NestedStart | InvalidName | DuplicateName | InvalidStartMarker | InvalidEndMarker | OrphanEnd | MissingEnd

  datatype Opening = Opening(startLine: string, name: string)

  /** Reader state: finished blocks, skeleton text since the last one, the open block
      and the lines read inside it. */
  datatype State = State(blocks: seq<Block>, before: string, open: Option<Opening>, region: string)

  const INITIAL := State([], "", None, "")

  predicate NameTaken(blocks: seq<Block>, name: string) {
    exists b <- blocks :: b.name == name
  }

  /** Length of the region without its final line end. */
  function ContentLength(region: string): (n: nat)
    ensures n <= |region|
  {
    if region != "" && region[|region| - 1] == LF then |region| - 1 else |region|
  }

  function Close(st: State, line: string): State
    requires st.open.Some?
  {
    var n := ContentLength(st.region);
    State(st.blocks + [Block(st.before, st.open.value.startLine, st.open.value.name,
                             st.region[..n], st.region[n..], line)], "", None, "")
  }

  datatype StepResult = Next(st: State) | Fail(error: ParseError)

  function Step(st: State, line: string): StepResult {
    match MarkerOf(line)
    case NoMarker =>
      if st.open.Some? then Next(st.(region := st.region + line)) else Next(st.(before := st.before + line))
    case StartMarker(rawName) =>
      var name := NameAt(rawName, |st.blocks|);
      if st.open.Some? then Fail(NestedStart)
      else if !ValidName(name) then Fail(InvalidName)
      else if NameTaken(st.blocks, name) then Fail(DuplicateName)
      else Next(st.(open := Some(Opening(line, name)), region := ""))
    case BadStart => Fail(InvalidStartMarker)
    case EndMarker => if st.open.None? then Fail(OrphanEnd) else Next(Close(st, line))
    case BadEnd => Fail(InvalidEndMarker)
  }

  datatype Outcome = Outcome(st: State, error: Option<ParseError>)

  /** Reads lines until they end or one of them is an error. */
  function Run(lines: seq<string>, st: State): Outcome
    decreases |lines|
  {
    if lines == [] then Outcome(st, None)
    else match Step(st, lines[0])
      case Fail(e) => Outcome(st, Some(e))
      case Next(st') => Run(lines[1..], st')
  }

  /** A parsed file: its blocks and the skeleton text after the last one. */
  datatype Parsed = Parsed(blocks: seq<Block>, tail: string, error: Option<ParseError>)

  function Parse(code: string): Parsed {
    var out := Run(SplitLines(code), INITIAL);
    Parsed(out.st.blocks, out.st.before,
           if out.error.None? && out.st.open.Some? then Some(MissingEnd) else out.error)
  }

  /** Writing a parsed file back. */
  function Unparse(blocks: seq<Block>, tail: string): string {
    if blocks == [] then tail else blocks[0].Text() + Unparse(blocks[1..], tail)
  }

  // ----- what a parsed file looks like

  predicate DistinctNames(blocks: seq<Block>) {
    forall i, j :: 0 <= i < j < |blocks| ==> blocks[i].name != blocks[j].name
  }

  /** The region between the marker lines reads back as the block's content. */
  predicate GoodRegion(content: string, newline: string) {
    && MarkerFree(content)
    && (newline == "\n" || (newline == "" && content == ""))
  }

  predicate GoodFrame(b: Block, index: nat) {
    && Terminated(b.before) && MarkerFree(b.before)
    && IsLine(b.startLine) && Terminated(b.startLine)
    && MarkerOf(b.startLine).StartMarker?
    && b.name == NameAt(MarkerOf(b.startLine).rawName, index) && ValidName(b.name)
    && IsLine(b.endLine) && MarkerOf(b.endLine) == EndMarker
  }

  predicate GoodBlock(b: Block, index: nat) {
    GoodFrame(b, index) && GoodRegion(b.content, b.newline)
  }

  predicate GoodBlocks(blocks: seq<Block>) {
    && DistinctNames(blocks)
    && (forall i :: 0 <= i < |blocks| ==> GoodBlock(blocks[i], i))
    && (forall i :: 0 <= i < |blocks| - 1 ==> Terminated(blocks[i].endLine))
  }

  /** Exactly the lists that some file parses to without error. */
  predicate WellFormed(blocks: seq<Block>, tail: string) {
    && GoodBlocks(blocks)
    && MarkerFree(tail)
    && (blocks != [] && tail != "" ==> Terminated(blocks[|blocks| - 1].endLine))
  }

  // ----- writing and reading back

  lemma {:induction false} RunConcat(a: seq<string>, b: seq<string>, st: State)
    ensures Run(a + b, st) == if Run(a, st).error.None? then Run(b, Run(a, st).st) else Run(a, st)
    decreases |a|
  {
    if a == [] {
      assert a + b == b;
    } else {
      hide Step;
      assert (a + b)[1..] == a[1..] + b;
      match Step(st, a[0])
      case Fail(_) =>
      case Next(st') => RunConcat(a[1..], b, st');
    }
  }

  lemma {:induction false} RunPlain(lines: seq<string>, st: State)
    requires AllPlain(lines)
    ensures Run(lines, st)
            == Outcome(if st.open.Some? then st.(region := st.region + Flatten(lines))
                       else st.(before := st.before + Flatten(lines)), None)
    decreases |lines|
  {
    hide MarkerOf;
    if lines == [] {
      assert st.region + "" == st.region && st.before + "" == st.before;
    } else {
      assert MarkerOf(lines[0]) == NoMarker;
      var st' := Step(st, lines[0]).st;
      assert forall l <- lines[1..] :: l in lines;
      RunPlain(lines[1..], st');
      assert st.region + (lines[0] + Flatten(lines[1..])) == st.region + lines[0] + Flatten(lines[1..]);
      assert st.before + (lines[0] + Flatten(lines[1..])) == st.before + lines[0] + Flatten(lines[1..]);
    }
  }

  lemma {:induction false} RunPlainText(s: string, st: State)
    requires MarkerFree(s)
    ensures Run(SplitLines(s), st)
            == Outcome(if st.open.Some? then st.(region := st.region + s) else st.(before := st.before + s), None)
  {
    FlattenSplit(s);
    RunPlain(SplitLines(s), st);
  }

  lemma {:induction false} SplitBlock(b: Block, rest: string)
    requires Terminated(b.before) && IsLine(b.startLine) && Terminated(b.startLine)
    requires Terminated(b.content + b.newline) && IsLine(b.endLine)
    requires Terminated(b.endLine) || rest == ""
    ensures SplitLines(b.Text() + rest)
            == SplitLines(b.before)
               + ([b.startLine] + (SplitLines(b.content + b.newline) + ([b.endLine] + SplitLines(rest))))
  {
    hide SplitLines;
    var region := b.content + b.newline;
    SplitOneLine(b.endLine, rest);
    SplitConcat(region, b.endLine + rest);
    SplitOneLine(b.startLine, region + (b.endLine + rest));
    SplitConcat(b.before, b.startLine + (region + (b.endLine + rest)));
    assert b.Text() + rest == b.before + (b.startLine + (region + (b.endLine + rest)));
  }

  lemma {:induction false} RegionFacts(content: string, newline: string)
    requires GoodRegion(content, newline)
    ensures Terminated(content + newline) && MarkerFree(content + newline)
    ensures (content + newline)[..ContentLength(content + newline)] == content
    ensures (content + newline)[ContentLength(content + newline)..] == newline
  {
    if newline == "\n" {
      MarkerFreeLineEnd(content);
    } else {
      assert content + newline == "";
    }
  }

  lemma {:induction false} StartOpens(b: Block, index: nat, st: State)
    requires GoodFrame(b, index) && st.open.None? && |st.blocks| == index && !NameTaken(st.blocks, b.name)
    ensures Step(st, b.startLine) == Next(st.(open := Some(Opening(b.startLine, b.name)), region := ""))
  {
    hide MarkerFree, MarkerOf, NameAt, ValidName;
  }

  lemma {:induction false} RunNext(line: string, rest: seq<string>, st: State)
    requires Step(st, line).Next?
    ensures Run([line] + rest, st) == Run(rest, Step(st, line).st)
  {
    hide Step;
    assert ([line] + rest)[1..] == rest;
  }

  lemma {:induction false} EndCloses(b: Block, index: nat, st: State)
    requires GoodFrame(b, index) && st.open.Some?
    ensures Step(st, b.endLine) == Next(Close(st, b.endLine))
  {
    hide MarkerFree, MarkerOf, NameAt, ValidName;
  }

  /** A good block is read as itself, whatever was read before. */
  lemma {:induction false} RunBlock(b: Block, rest: string, st: State)
    requires st.before == "" && st.open.None? && st.region == ""
    requires GoodBlock(b, |st.blocks|) && !NameTaken(st.blocks, b.name)
    requires Terminated(b.endLine) || rest == ""
    ensures Run(SplitLines(b.Text() + rest), st) == Run(SplitLines(rest), st.(blocks := st.blocks + [b]))
  {
    hide SplitLines, MarkerFree, MarkerOf, NameAt, ValidName, IsLine, Terminated, ContentLength, Run, Step;
    var region := b.content + b.newline;
    RegionFacts(b.content, b.newline);
    SplitBlock(b, rest);
    var afterRegion := [b.endLine] + SplitLines(rest);
    var afterStart := SplitLines(region) + afterRegion;
    var st1 := st.(before := b.before);
    var st2 := st1.(open := Some(Opening(b.startLine, b.name)), region := "");
    var st3 := st2.(region := region);
    RunPlainText(b.before, st);
    assert st.before + b.before == b.before;
    RunConcat(SplitLines(b.before), [b.startLine] + afterStart, st);
    StartOpens(b, |st.blocks|, st1);
    RunNext(b.startLine, afterStart, st1);
    RunPlainText(region, st2);
    assert st2.region + region == region;
    RunConcat(SplitLines(region), afterRegion, st2);
    EndCloses(b, |st.blocks|, st3);
    RunNext(b.endLine, SplitLines(rest), st3);
  }

  lemma {:induction false} RunUnparse(blocks: seq<Block>, tail: string, i: nat)
    requires WellFormed(blocks, tail) && i <= |blocks|
    ensures Run(SplitLines(Unparse(blocks[i..], tail)), State(blocks[..i], "", None, ""))
            == Outcome(State(blocks, tail, None, ""), None)
    decreases |blocks| - i
  {
    hide Run, SplitLines, GoodBlock, MarkerFree, Terminated;
    var st := State(blocks[..i], "", None, "");
    if i == |blocks| {
      assert blocks[..i] == blocks;
      RunPlainText(tail, st);
      assert "" + tail == tail;
    } else {
      var b, rest := blocks[i], Unparse(blocks[i + 1..], tail);
      assert blocks[i..][1..] == blocks[i + 1..];
      RestOfWellFormed(blocks, tail, i);
      RunBlock(b, rest, st);
      assert blocks[..i] + [b] == blocks[..i + 1];
      RunUnparse(blocks, tail, i + 1);
    }
  }

  lemma {:induction false} RestOfWellFormed(blocks: seq<Block>, tail: string, i: nat)
    requires WellFormed(blocks, tail) && i < |blocks|
    ensures GoodBlock(blocks[i], i) && !NameTaken(blocks[..i], blocks[i].name)
    ensures Terminated(blocks[i].endLine) || Unparse(blocks[i + 1..], tail) == ""
  {
    hide GoodBlock, Terminated;
    assert i + 1 == |blocks| ==> Unparse(blocks[i + 1..], tail) == tail;
  }

  /** Reading back what was written: every well-formed list of blocks is recovered,
      with its contents, from the text it is written to. */
  lemma {:induction false} ParseInvertsUnparse(blocks: seq<Block>, tail: string)
    requires WellFormed(blocks, tail)
    ensures Parse(Unparse(blocks, tail)) == Parsed(blocks, tail, None)
  {
    assert blocks[0..] == blocks && blocks[..0] == [];
    RunUnparse(blocks, tail, 0);
  }

  // ----- every file without errors is written back unchanged

  function StateText(st: State): string {
    Unparse(st.blocks, st.before + (if st.open.Some? then st.open.value.startLine + st.region else ""))
  }

  /** Facts about the state after any prefix of the lines of a file. */
  predicate Inv(st: State) {
    && GoodBlocks(st.blocks)
    && MarkerFree(st.before)
    && (st.blocks != [] && (st.before != "" || st.open.Some?) ==> Terminated(st.blocks[|st.blocks| - 1].endLine))
    && (st.open.Some? ==>
          && Terminated(st.before) && !NameTaken(st.blocks, st.open.value.name)
          && IsLine(st.open.value.startLine) && MarkerOf(st.open.value.startLine).StartMarker?
          && st.open.value.name == NameAt(MarkerOf(st.open.value.startLine).rawName, |st.blocks|)
          && ValidName(st.open.value.name)
          && (st.region != "" ==> Terminated(st.open.value.startLine))
          && MarkerFree(st.region))
    && (st.open.None? ==> st.region == "")
  }

  lemma {:induction false} UnparseTail(blocks: seq<Block>, tail: string, more: string)
    ensures Unparse(blocks, tail + more) == Unparse(blocks, tail) + more
  {
    if blocks != [] { UnparseTail(blocks[1..], tail, more); }
  }

  lemma {:induction false} UnparseAppend(blocks: seq<Block>, b: Block, tail: string)
    ensures Unparse(blocks + [b], tail) == Unparse(blocks, b.Text() + tail)
  {
    if blocks == [] {
      assert [b][1..] == [];
    } else {
      UnparseAppend(blocks[1..], b, tail);
      assert (blocks + [b])[1..] == blocks[1..] + [b];
    }
  }

  lemma {:induction false} StepText(st: State, line: string)
    requires Step(st, line).Next? && (st.open.None? ==> st.region == "")
    ensures StateText(Step(st, line).st) == StateText(st) + line
  {
    hide MarkerOf, Unparse, StateText, Close, NameAt, ValidName, NameTaken;
    match MarkerOf(line)
    case NoMarker => PlainText(st, line);
    case StartMarker(raw) => StartText(st, line, NameAt(raw, |st.blocks|));
    case EndMarker => EndText(st, line);
    case _ =>
  }

  lemma {:induction false} PlainText(st: State, line: string)
    requires st.open.None? ==> st.region == ""
    ensures StateText(if st.open.Some? then st.(region := st.region + line) else st.(before := st.before + line))
         == StateText(st) + line
  {
    hide Unparse;
    var open := if st.open.Some? then st.open.value.startLine + st.region else "";
    UnparseTail(st.blocks, st.before + open, line);
    ConcatAssociates(st.before, open, line);
    if st.open.Some? {
      ConcatAssociates(st.open.value.startLine, st.region, line);
    } else {
      assert st.before + line + "" == st.before + open + line;
    }
  }

  lemma {:induction false} StartText(st: State, line: string, name: string)
    requires st.open.None?
    ensures StateText(st.(open := Some(Opening(line, name)), region := "")) == StateText(st) + line
  {
    hide Unparse;
    UnparseTail(st.blocks, st.before + "", line);
    assert st.before + (line + "") == st.before + "" + line;
  }

  lemma {:induction false} EndText(st: State, line: string)
    requires st.open.Some?
    ensures StateText(Close(st, line)) == StateText(st) + line
  {
    hide Unparse, ContentLength;
    var n, open := ContentLength(st.region), st.open.value.startLine + st.region;
    var b := Block(st.before, st.open.value.startLine, st.open.value.name, st.region[..n], st.region[n..], line);
    UnparseTail(st.blocks, st.before + open, line);
    UnparseAppend(st.blocks, b, "" + "");
    ClosedText(b, st.region);
    assert b.Text() + ("" + "") == st.before + open + line;
  }

  lemma ClosedText(b: Block, region: string)
    requires b.content + b.newline == region
    ensures b.Text() == b.before + (b.startLine + region) + b.endLine
  {
  }

  lemma {:induction false} UnparseEnds(blocks: seq<Block>, tail: string)
    requires Terminated(Unparse(blocks, tail)) && forall b <- blocks :: b.endLine != ""
    ensures Terminated(tail)
    ensures tail == "" && blocks != [] ==> Terminated(blocks[|blocks| - 1].endLine)
  {
    if blocks != [] {
      var b, rest := blocks[0], Unparse(blocks[1..], tail);
      SuffixEnds(b.before + b.startLine + b.content + b.newline + b.endLine, rest);
      SuffixEnds(b.before + b.startLine + b.content + b.newline, b.endLine);
      UnparseEnds(blocks[1..], tail);
    }
  }

  /** A suffix of a text that ends at a line boundary ends there too. */
  lemma {:induction false} SuffixEnds(a: string, b: string)
    ensures Terminated(a + b) ==> Terminated(b)
    ensures Terminated(a + b) && b == "" ==> Terminated(a)
  {
    assert b != "" ==> (a + b)[|a + b| - 1] == b[|b| - 1];
    assert b == "" ==> a + b == a;
  }

  /** What a line boundary after the text read so far says about its last pieces. */
  lemma {:induction false} BoundaryFacts(st: State)
    requires Inv(st) && Terminated(StateText(st))
    ensures st.blocks != [] && st.before == "" && st.open.None? ==> Terminated(st.blocks[|st.blocks| - 1].endLine)
    ensures st.open.None? ==> Terminated(st.before)
    ensures st.open.Some? ==> Terminated(st.open.value.startLine) && Terminated(st.region)
  {
    hide MarkerFree, MarkerOf, NameAt, ValidName;
    var open := if st.open.Some? then st.open.value.startLine + st.region else "";
    forall b | b in st.blocks
      ensures b.endLine != ""
    {
      var i :| 0 <= i < |st.blocks| && st.blocks[i] == b;
      assert GoodBlock(st.blocks[i], i);
    }
    UnparseEnds(st.blocks, st.before + open);
    SuffixEnds(st.before, open);
    if st.open.Some? {
      SuffixEnds(st.open.value.startLine, st.region);
    }
  }

  lemma {:induction false} MarkerFreeAppend(s: string, line: string)
    requires Terminated(s) && MarkerFree(s) && IsLine(line) && MarkerOf(line) == NoMarker
    ensures MarkerFree(s + line)
  {
    MarkerFreeConcat(s, line);
    OneLineMarker(line);
  }

  lemma {:induction false} StepKeepsInv(st: State, line: string)
    requires Inv(st) && Terminated(StateText(st)) && IsLine(line) && Step(st, line).Next?
    ensures Inv(Step(st, line).st)
  {
    hide MarkerFree, MarkerOf, NameAt, ValidName, GoodBlocks, Terminated, NameTaken, StateText, ContentLength;
    BoundaryFacts(st);
    match MarkerOf(line)
    case NoMarker =>
      if st.open.Some? { MarkerFreeAppend(st.region, line); } else { MarkerFreeAppend(st.before, line); }
    case StartMarker(_) =>
      EmptyMarkerFree();
    case EndMarker =>
      EmptyMarkerFree();
      CloseIsGood(st, line);
    case _ =>
  }

  lemma EmptyMarkerFree()
    ensures MarkerFree("")
  {
  }

  lemma {:induction false} CloseIsGood(st: State, line: string)
    requires Inv(st) && st.open.Some? && IsLine(line) && MarkerOf(line) == EndMarker
    requires Terminated(st.open.value.startLine) && Terminated(st.region)
    ensures GoodBlocks(Close(st, line).blocks)
  {
    hide MarkerFree, MarkerOf, NameAt, ValidName;
    var blocks := Close(st, line).blocks;
    var b := blocks[|st.blocks|];
    var n := ContentLength(st.region);
    assert st.region != "" ==> st.region == st.region[..n] + "\n" && b.newline == "\n";
    if st.region != "" { MarkerFreeLineEnd(st.region[..n]); }
    assert GoodBlock(b, |st.blocks|);
    forall i | 0 <= i < |st.blocks|
      ensures blocks[i].name != b.name
    {
      assert st.blocks[i] in st.blocks;
    }
    assert DistinctNames(blocks);
  }

  /** Lines of which all but the last end with LF, as splitting produces them. */
  predicate ProperLines(lines: seq<string>) {
    && (forall l <- lines :: IsLine(l))
    && (forall i :: 0 <= i < |lines| - 1 ==> Terminated(lines[i]))
  }

  lemma {:induction false} SplitIsProper(s: string)
    ensures ProperLines(SplitLines(s))
    decreases |s|
  {
    if s != "" {
      var line, rest := FirstLine(s);
      SplitOneLine(line, rest);
      SplitIsProper(rest);
      assert SplitLines("") == [];
    }
  }

  lemma {:induction false} RunKeepsInv(lines: seq<string>, st: State)
    requires Inv(st) && ProperLines(lines) && (lines != [] ==> Terminated(StateText(st)))
    ensures Inv(Run(lines, st).st)
    ensures Run(lines, st).error.None? ==> StateText(Run(lines, st).st) == StateText(st) + Flatten(lines)
    ensures StateText(Run(lines, st).st) <= StateText(st) + Flatten(lines)
    decreases |lines|
  {
    hide Inv, StateText, Step;
    if lines == [] {
      assert StateText(st) + "" == StateText(st);
    } else if Step(st, lines[0]).Next? {
      hide Terminated;
      var line, rest := lines[0], lines[1..];
      assert forall l <- rest :: l in lines;
      assert forall i :: 0 <= i < |rest| ==> rest[i] == lines[i + 1];
      StepAdvances(st, line);
      RunKeepsInv(rest, Step(st, line).st);
      ConcatAssociates(StateText(st), line, Flatten(rest));
    }
  }

  lemma {:induction false} StepAdvances(st: State, line: string)
    requires Inv(st) && Terminated(StateText(st)) && IsLine(line) && Step(st, line).Next?
    ensures Inv(Step(st, line).st)
    ensures StateText(Step(st, line).st) == StateText(st) + line
    ensures Terminated(line) ==> Terminated(StateText(st) + line)
  {
    hide Inv, Step, StateText;
    StepKeepsInv(st, line);
    ClosedRegion(st);
    StepText(st, line);
  }

  lemma ClosedRegion(st: State)
    requires Inv(st)
    ensures st.open.None? ==> st.region == ""
  {
  }

  lemma {:induction false} InitialInv()
    ensures Inv(INITIAL) && StateText(INITIAL) == ""
  {
    EmptyMarkerFree();
  }

  /** Every file that parses without error is written back unchanged, and its parts
      satisfy the conditions for reading them back. */
  lemma {:induction false} UnparseInvertsParse(code: string)
    requires Parse(code).error.None?
    ensures var p := Parse(code); WellFormed(p.blocks, p.tail) && Unparse(p.blocks, p.tail) == code
  {
    hide MarkerFree, GoodBlock, Step;
    SplitIsProper(code);
    FlattenSplit(code);
    InitialInv();
    RunKeepsInv(SplitLines(code), INITIAL);
    var st := Run(SplitLines(code), INITIAL).st;
    assert st.before + "" == st.before;
    assert "" + code == code;
  }

  /** Even after an error, the blocks read so far are good, have distinct names and
      are the beginning of the file. */
  lemma {:induction false} ParsedBlocksAreGood(code: string)
    ensures GoodBlocks(Parse(code).blocks)
    ensures Unparse(Parse(code).blocks, "") <= code
  {
    hide GoodBlocks, MarkerFree, Step, Unparse;
    SplitIsProper(code);
    FlattenSplit(code);
    InitialInv();
    RunKeepsInv(SplitLines(code), INITIAL);
    var st := Run(SplitLines(code), INITIAL).st;
    var open := if st.open.Some? then st.open.value.startLine + st.region else "";
    assert "" + (st.before + open) == st.before + open;
    UnparseTail(st.blocks, "", st.before + open);
    assert "" + code == code;
  }

  // ----- replacing contents

  function WithContents(blocks: seq<Block>, contents: seq<string>): seq<Block>
    requires |contents| == |blocks|
  {
    seq(|blocks|, i requires 0 <= i < |blocks| => blocks[i].(content := contents[i]))
  }

  /** New contents that stay readable: free of marker lines, and empty wherever the END
      line follows the START line directly. */
  predicate Readable(blocks: seq<Block>, contents: seq<string>)
    requires |contents| == |blocks|
  {
    forall i :: 0 <= i < |blocks| ==> MarkerFree(contents[i]) && (blocks[i].newline == "\n" || contents[i] == "")
  }

  /** Reparse after splice, exactly: writing new contents into the skeleton of a file and
      parsing the result gives the same skeleton with these contents if and only if every
      new content is free of marker lines and a non-empty one has a newline before END. */
  lemma {:induction false} ReparseAfterSplice(code: string, contents: seq<string>)
    requires Parse(code).error.None? && |contents| == |Parse(code).blocks|
    ensures var p := Parse(code);
            var spliced := WithContents(p.blocks, contents);
            Parse(Unparse(spliced, p.tail)) == Parsed(spliced, p.tail, None) <==> Readable(p.blocks, contents)
  {
    hide Parse, MarkerFree, Unparse;
    var p := Parse(code);
    var spliced := WithContents(p.blocks, contents);
    UnparseInvertsParse(code);
    if Readable(p.blocks, contents) {
      ReadableIsWellFormed(p.blocks, p.tail, contents);
      ParseInvertsUnparse(spliced, p.tail);
    }
    if Parse(Unparse(spliced, p.tail)) == Parsed(spliced, p.tail, None) {
      UnparseInvertsParse(Unparse(spliced, p.tail));
      forall i | 0 <= i < |p.blocks|
        ensures MarkerFree(contents[i]) && (p.blocks[i].newline == "\n" || contents[i] == "")
      {
        assert GoodBlock(spliced[i], i);
        assert spliced[i].content == contents[i] && spliced[i].newline == p.blocks[i].newline;
      }
    }
  }

  lemma {:induction false} ReadableIsWellFormed(blocks: seq<Block>, tail: string, contents: seq<string>)
    requires WellFormed(blocks, tail) && |contents| == |blocks| && Readable(blocks, contents)
    ensures WellFormed(WithContents(blocks, contents), tail)
  {
    hide MarkerFree, GoodFrame;
    var spliced := WithContents(blocks, contents);
    forall i | 0 <= i < |blocks|
      ensures GoodBlock(spliced[i], i)
    {
      assert GoodBlock(blocks[i], i);
      SameFrame(blocks[i], contents[i], i);
    }
    assert DistinctNames(spliced);
  }

  lemma SameFrame(b: Block, content: string, index: nat)
    ensures GoodFrame(b.(content := content), index) <==> GoodFrame(b, index)
  {
  }
}
