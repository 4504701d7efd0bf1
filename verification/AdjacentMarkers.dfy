/** Bodies spliced into EVOLVE-BLOCK regions whose END line directly follows their START line
    (libreevolve/core/candidate.py, lines 1636-1638 and 1817-1821).  Such a region has no
    newline of its own before END, so what is read back depends on how the body ends. */
module AdjacentMarkers {
  import opened Text
  import opened EvolveBlocks
  import opened CandidateMutation

  /** Length of the whole lines that a body begins with. */
  function WholeLength(body: string): (n: nat)
    ensures n <= |body| && Terminated(body[..n]) && LF !in body[n..]
  {
    if body == "" || body[|body| - 1] == LF then |body|
    else
      assert body[..|body| - 1][..WholeLength(body[..|body| - 1])] == body[..WholeLength(body[..|body| - 1])];
      WholeLength(body[..|body| - 1])
  }

  function WholeLines(body: string): string {
    body[..WholeLength(body)]
  }

  /** The rest of a body, which ends up in front of the END marker. */
  function Rest(body: string): string {
    body[WholeLength(body)..]
  }

  /** The block that is read back: with a newline before END its content is the body; without
      one it is the whole lines, less the last line end, and the END line begins with the
      rest of the body. */
  function ReadBack(b: Block, body: string): Block {
    if b.newline == "\n" then b.(content := body)
    else
      var whole := WholeLines(body);
      var n := ContentLength(whole);
      b.(content := whole[..n], newline := whole[n..], endLine := Rest(body) + b.endLine)
  }

  /** A body that leaves the marker lines of its block standing. */
  predicate KeepsMarkers(b: Block, body: string) {
    if b.newline == "\n" then MarkerFree(body) else MarkerFree(WholeLines(body)) && IsBlank(Rest(body))
  }

  function ReadBackAll(blocks: seq<Block>, bodies: seq<string>): (r: seq<Block>)
    requires |bodies| == |blocks|
    ensures |r| == |blocks| && forall i :: 0 <= i < |r| ==> r[i] == ReadBack(blocks[i], bodies[i])
  {
    seq(|blocks|, i requires 0 <= i < |blocks| => ReadBack(blocks[i], bodies[i]))
  }

  // ----- the END line

  /** Text in front of an END marker leaves it a marker exactly when it is blank. */
  lemma {:induction false} PrefixedEnd(rest: string, endLine: string)
    requires MarkerOf(endLine) == EndMarker
    ensures MarkerOf(rest + endLine) == EndMarker <==> IsBlank(rest)
  {
    EndIsText(endLine);
    hide MarkerOfText, StripLeft, StripRight, IsSpace;
    StripPrefixed(rest, endLine);
    if !IsBlank(rest) {
      OnlyEndEnds(Strip(rest + endLine));
    }
  }

  lemma {:induction false} EndIsText(line: string)
    ensures MarkerOf(line) == EndMarker <==> Strip(line) == END
  {
    hide StripLeft, StripRight;
  }

  lemma OnlyEndEnds(t: string)
    ensures MarkerOfText(t) == EndMarker <==> t == END
  {
  }

  lemma {:induction false} StripLeftPrefixed(a: string, b: string)
    ensures StripLeft(a + b) == if IsBlank(a) then StripLeft(b) else StripLeft(a) + b
    ensures IsBlank(a) <==> StripLeft(a) == ""
    decreases |a|
  {
    hide IsSpace;
    if a == "" {
      assert a + b == b;
    } else {
      assert (a + b)[1..] == a[1..] + b && a == [a[0]] + a[1..];
      StripLeftPrefixed(a[1..], b);
      assert a[0] in a && forall c <- a[1..] :: c in a;
    }
  }

  lemma {:induction false} StripRightSuffixed(a: string, b: string)
    requires !IsBlank(b)
    ensures StripRight(a + b) == a + StripRight(b) && StripRight(b) != ""
    decreases |b|
  {
    hide IsSpace;
    var init := b[..|b| - 1];
    assert (a + b)[..|a + b| - 1] == a + init && b == init + [b[|b| - 1]];
    if IsSpace(b[|b| - 1]) {
      assert exists c <- b :: !IsSpace(c) && c in init;
      StripRightSuffixed(a, init);
    }
  }

  /** Blank text in front is stripped; other text stays, and the line says more. */
  lemma {:induction false} StripPrefixed(a: string, b: string)
    requires Strip(b) == END
    ensures IsBlank(a) ==> Strip(a + b) == END
    ensures !IsBlank(a) ==> |Strip(a + b)| > |END|
  {
    StripLeftPrefixed(a, b);
    hide IsSpace, StripLeft, StripRight;
    if !IsBlank(a) {
      EndNotBlank(b);
      StripRightSuffixed(StripLeft(a), b);
      StripRightLength(b);
    }
  }

  lemma {:induction false} EndNotBlank(b: string)
    requires Strip(b) == END
    ensures !IsBlank(b)
  {
    hide IsSpace, StripRight;
    StripLeftPrefixed(b, "");
    assert b + "" == b;
    EmptyStrips();
  }

  lemma EmptyStrips()
    ensures StripRight("") == ""
  {
  }

  /** What is left of a text without its trailing white space is at least what is left
      without any. */
  lemma {:induction false} StripRightLength(b: string)
    requires Strip(b) == END
    ensures |StripRight(b)| >= |END|
    decreases |b|
  {
    hide IsSpace, StripRight;
    if b != "" && IsSpace(b[0]) {
      StripRightLength(b[1..]);
      EndNotBlank(b[1..]);
      StripRightSuffixed([b[0]], b[1..]);
      assert [b[0]] + b[1..] == b;
    }
  }

  // ----- reading back

  lemma {:induction false} Pieces(body: string)
    ensures var whole := WholeLines(body);
            var n := ContentLength(whole);
            n <= |whole| && whole[..n] + whole[n..] == whole && whole + Rest(body) == body
  {
    hide WholeLength;
  }

  lemma {:induction false} SameText(b: Block, body: string)
    requires b.newline == "\n" || b.newline == ""
    ensures ReadBack(b, body).Text() == b.(content := body).Text()
  {
    hide WholeLines, Rest, ContentLength;
    Pieces(body);
    if b.newline == "" {
      var whole, head := WholeLines(body), b.before + b.startLine;
      var n := ContentLength(whole);
      assert b.(content := body).Text() == head + body + b.endLine;
      assert head + whole[..n] + whole[n..] == head + whole by { ConcatAssociates(head, whole[..n], whole[n..]); }
      assert head + whole + (Rest(body) + b.endLine) == head + body + b.endLine by {
        ConcatAssociates(head + whole, Rest(body), b.endLine);
        ConcatAssociates(head, whole, Rest(body));
      }
    }
  }

  lemma {:induction false} SameFile(blocks: seq<Block>, bodies: seq<string>, tail: string)
    requires |bodies| == |blocks| && forall b <- blocks :: b.newline == "\n" || b.newline == ""
    ensures Unparse(ReadBackAll(blocks, bodies), tail) == Unparse(WithContents(blocks, bodies), tail)
    decreases |blocks|
  {
    hide ReadBack, Block.Text;
    if blocks != [] {
      SameText(blocks[0], bodies[0]);
      SameFile(blocks[1..], bodies[1..], tail);
      assert ReadBackAll(blocks, bodies)[1..] == ReadBackAll(blocks[1..], bodies[1..]);
      assert WithContents(blocks, bodies)[1..] == WithContents(blocks[1..], bodies[1..]);
    }
  }

  lemma LinePrefixed(rest: string, line: string)
    requires LF !in rest && IsLine(line)
    ensures IsLine(rest + line) && (Terminated(rest + line) <==> Terminated(line))
  {
  }

  lemma {:induction false} WholeLinesFree(body: string)
    ensures var whole := WholeLines(body);
            var n := ContentLength(whole);
            && (MarkerFree(whole[..n]) <==> MarkerFree(whole))
            && (whole[n..] == "\n" || (whole[n..] == "" && whole[..n] == ""))
  {
    hide MarkerFree, WholeLength;
    var whole := WholeLines(body);
    var n := ContentLength(whole);
    if n < |whole| {
      assert whole == whole[..n] + "\n";
      MarkerFreeLineEnd(whole[..n]);
    } else {
      assert whole == "" && whole[..n] == whole;
    }
  }

  /** The block read back is a good block exactly when the body keeps the markers. */
  lemma {:induction false} GoodWhenKept(b: Block, body: string, index: nat)
    requires GoodBlock(b, index)
    ensures GoodBlock(ReadBack(b, body), index) <==> KeepsMarkers(b, body)
    ensures Terminated(ReadBack(b, body).endLine) <==> Terminated(b.endLine)
    ensures ReadBack(b, body).name == b.name
  {
    hide MarkerFree, MarkerOf, NameAt, ValidName, IsLine, Terminated, IsBlank, WholeLength, ContentLength;
    if b.newline != "\n" {
      WholeLinesFree(body);
      LinePrefixed(Rest(body), b.endLine);
      PrefixedEnd(Rest(body), b.endLine);
    }
  }

  /** Reparse after splice for any bodies: the file parses to the old skeleton with the blocks
      read back as described, under the same names, if and only if every body leaves the
      marker lines of its block standing. */
  lemma {:induction false} ReparseWithAnyBodies(code: string, bodies: seq<string>)
    requires Parse(code).error.None? && |bodies| == |Parse(code).blocks|
    ensures var p := Parse(code);
            var expected := ReadBackAll(p.blocks, bodies);
            Parse(Unparse(WithContents(p.blocks, bodies), p.tail)) == Parsed(expected, p.tail, None)
            <==> forall i :: 0 <= i < |bodies| ==> KeepsMarkers(p.blocks[i], bodies[i])
  {
    hide Parse, Unparse, GoodBlock, KeepsMarkers, ReadBack, Terminated, MarkerFree;
    var p := Parse(code);
    var expected := ReadBackAll(p.blocks, bodies);
    UnparseInvertsParse(code);
    NewlinesOfGood(p.blocks);
    SameFile(p.blocks, bodies, p.tail);
    forall i | 0 <= i < |p.blocks|
      ensures GoodBlock(expected[i], i) <==> KeepsMarkers(p.blocks[i], bodies[i])
      ensures Terminated(expected[i].endLine) <==> Terminated(p.blocks[i].endLine)
      ensures expected[i].name == p.blocks[i].name
    {
      GoodWhenKept(p.blocks[i], bodies[i], i);
    }
    if forall i :: 0 <= i < |bodies| ==> KeepsMarkers(p.blocks[i], bodies[i]) {
      assert WellFormed(expected, p.tail);
      ParseInvertsUnparse(expected, p.tail);
    }
    if Parse(Unparse(expected, p.tail)) == Parsed(expected, p.tail, None) {
      UnparseInvertsParse(Unparse(expected, p.tail));
      forall i | 0 <= i < |bodies| ensures KeepsMarkers(p.blocks[i], bodies[i]) {
        assert GoodBlock(expected[i], i);
      }
    }
  }

  /** Named replacement for any section bodies, read back: all names stay, named blocks hold
      what `ReadBack` says and all others their old content, if and only if every body leaves
      the marker lines of its block standing. */
  lemma {:induction false} NamedReplacementWithAnyBodies(code: string, sections: seq<(string, string)>)
    requires Parse(code).error.None? && NamedReplacement(code, sections).Ok?
    ensures Collect(sections, map[]).Ok?
    ensures var p, bodies := Parse(code), Collect(sections, map[]).value;
            var expected := ReadBackAll(p.blocks, NewContents(p.blocks, bodies));
            Parse(NamedReplacement(code, sections).value) == Parsed(expected, p.tail, None)
            <==> forall b <- p.blocks :: b.name in bodies ==> KeepsMarkers(b, bodies[b.name])
  {
    hide Parse, Unparse, MarkerFree, Collect, NamedReplacement, KeepsMarkers, ReadBack, GoodBlock, Names;
    NamedReplacementIsSubstitution(code, sections);
    var p, bodies := Parse(code), Collect(sections, map[]).value;
    var contents := NewContents(p.blocks, bodies);
    UnparseInvertsParse(code);
    ReparseWithAnyBodies(code, contents);
    forall i | 0 <= i < |p.blocks|
      ensures p.blocks[i].name !in bodies ==> KeepsMarkers(p.blocks[i], contents[i])
      ensures p.blocks[i].name in bodies ==> contents[i] == bodies[p.blocks[i].name]
      ensures p.blocks[i] in p.blocks
    {
      assert GoodBlock(p.blocks[i], i);
      OwnContentIsKept(p.blocks[i], i);
    }
    if forall i :: 0 <= i < |contents| ==> KeepsMarkers(p.blocks[i], contents[i]) {
      forall b | b in p.blocks && b.name in bodies ensures KeepsMarkers(b, bodies[b.name]) {
        var i :| 0 <= i < |p.blocks| && p.blocks[i] == b;
      }
    }
  }

  lemma {:induction false} NewlinesOfGood(blocks: seq<Block>)
    requires GoodBlocks(blocks)
    ensures forall b <- blocks :: b.newline == "\n" || b.newline == ""
  {
    hide GoodFrame, MarkerFree;
    forall i | 0 <= i < |blocks| ensures blocks[i].newline == "\n" || blocks[i].newline == "" {
      assert GoodBlock(blocks[i], i);
    }
  }

  // ----- a marker that is lost

  /** The reader is inside a block, or has stopped with an error. */
  predicate NotClosed(out: Outcome) {
    out.error.Some? || out.st.open.Some?
  }

  /** Inside a block, the rest of a well-formed file never closes it: the next marker is a
      START, or there is none. */
  lemma {:induction false} RestNeverCloses(blocks: seq<Block>, tail: string, i: nat, st: State)
    requires WellFormed(blocks, tail) && i <= |blocks| && st.open.Some?
    ensures NotClosed(Run(SplitLines(Unparse(blocks[i..], tail)), st))
  {
    hide Run, SplitLines, GoodRegion, MarkerFree, Terminated, MarkerOf, NameAt, ValidName, IsLine;
    if i == |blocks| {
      RunPlainText(tail, st);
    } else {
      var b, rest := blocks[i], Unparse(blocks[i + 1..], tail);
      assert blocks[i..][1..] == blocks[i + 1..];
      assert GoodBlock(b, i);
      var after := b.content + b.newline + b.endLine + rest;
      assert b.Text() + rest == b.before + (b.startLine + after);
      SplitConcat(b.before, b.startLine + after);
      SplitOneLine(b.startLine, after);
      RunPlainText(b.before, st);
      RunConcat(SplitLines(b.before), [b.startLine] + SplitLines(after), st);
      RunOne(b.startLine, SplitLines(after), Run(SplitLines(b.before), st).st);
    }
  }

  /** A START line inside a block is an error; a line that is not an END keeps it open. */
  lemma {:induction false} RunOne(line: string, rest: seq<string>, st: State)
    requires st.open.Some? && MarkerOf(line) != EndMarker
    ensures MarkerOf(line).StartMarker? ==> Run([line] + rest, st).error.Some?
    ensures Run([line] + rest, st).error.Some?
            || (&& Step(st, line).Next? && Step(st, line).st.open.Some?
                && Run([line] + rest, st) == Run(rest, Step(st, line).st))
  {
    hide MarkerOf, NameAt, ValidName;
    assert ([line] + rest)[1..] == rest;
  }

  /** The blocks before block i, read from the start of the file. */
  lemma {:induction false} RunPrefix(blocks: seq<Block>, tail: string, i: nat, more: string)
    requires WellFormed(blocks, tail) && i < |blocks|
    ensures Run(SplitLines(Unparse(blocks[..i], "") + more), INITIAL)
         == Run(SplitLines(more), State(blocks[..i], "", None, ""))
  {
    hide Run, SplitLines, GoodBlock, MarkerFree, Terminated;
    var prefix := blocks[..i];
    PrefixIsWellFormed(blocks, tail, i);
    assert prefix[0..] == prefix && prefix[..0] == [];
    RunUnparse(prefix, "", 0);
    SplitConcat(Unparse(prefix, ""), more);
    RunConcat(SplitLines(Unparse(prefix, "")), SplitLines(more), INITIAL);
  }

  lemma {:induction false} PrefixIsWellFormed(blocks: seq<Block>, tail: string, i: nat)
    requires WellFormed(blocks, tail) && i < |blocks|
    ensures WellFormed(blocks[..i], "") && Terminated(Unparse(blocks[..i], ""))
  {
    hide GoodBlock, MarkerFree, Unparse;
    EmptyMarkerFree();
    if i == 0 {
      UnparseNone("");
    } else {
      UnparseSplit(blocks, tail, i - 1);
      assert Terminated(blocks[i - 1].endLine) && GoodBlock(blocks[i - 1], i - 1);
      EndsWithEndLine(blocks[i - 1], Unparse(blocks[..i - 1], ""), i - 1);
    }
  }

  lemma {:induction false} EndsWithEndLine(b: Block, prefix: string, index: nat)
    requires GoodBlock(b, index) && Terminated(b.endLine)
    ensures Terminated(prefix + b.Text())
  {
    hide MarkerFree, MarkerOf, NameAt, ValidName;
    var head := prefix + (b.before + b.startLine + b.content + b.newline);
    assert prefix + b.Text() == head + b.endLine;
  }

  /** A body whose last line is glued onto the END marker, exactly: with markers next to each
      other and whole lines free of markers, visible text after the last line end makes the
      whole file unreadable; the block is never closed. */
  lemma {:induction false} GluedEndIsLost(code: string, i: nat, body: string)
    requires Parse(code).error.None? && i < |Parse(code).blocks| && Parse(code).blocks[i].newline == ""
    requires MarkerFree(WholeLines(body))
    ensures var p := Parse(code);
            Parse(Unparse(p.blocks[i := p.blocks[i].(content := body)], p.tail)).error.None? <==> IsBlank(Rest(body))
  {
    hide *;
    var p := Parse(code);
    UnparseInvertsParse(code);
    if IsBlank(Rest(body)) {
      BlankRestIsRead(code, i, body);
    } else {
      VisibleRestIsNotRead(p.blocks, p.tail, i, body);
    }
  }

  lemma {:induction false} BlankRestIsRead(code: string, i: nat, body: string)
    requires Parse(code).error.None? && i < |Parse(code).blocks| && Parse(code).blocks[i].newline == ""
    requires MarkerFree(WholeLines(body)) && IsBlank(Rest(body))
    ensures var p := Parse(code);
            var changed := p.blocks[i := ReadBack(p.blocks[i], body)];
            Parse(Unparse(p.blocks[i := p.blocks[i].(content := body)], p.tail)) == Parsed(changed, p.tail, None)
  {
    hide Parse, Unparse, MarkerFree, WholeLength, IsBlank, Terminated;
    var p := Parse(code);
    UnparseInvertsParse(code);
    assert KeepsMarkers(p.blocks[i], body);
    hide KeepsMarkers, ReadBack, WellFormed, WithContents, ReadBackAll, OneChanged;
    OneBody(p.blocks, p.tail, i, body);
    ReparseWithAnyBodies(code, OneChanged(p.blocks, i, body));
  }

  /** Changing one body leaves every other block as it was read. */
  lemma {:induction false} OneBody(blocks: seq<Block>, tail: string, i: nat, body: string)
    requires WellFormed(blocks, tail) && i < |blocks| && KeepsMarkers(blocks[i], body)
    ensures var bodies := OneChanged(blocks, i, body);
            && |bodies| == |blocks|
            && (forall k :: 0 <= k < |bodies| ==> KeepsMarkers(blocks[k], bodies[k]))
            && WithContents(blocks, bodies) == blocks[i := blocks[i].(content := body)]
            && ReadBackAll(blocks, bodies) == blocks[i := ReadBack(blocks[i], body)]
  {
    hide KeepsMarkers, ReadBack, GoodBlock, WellFormed;
    var bodies := OneChanged(blocks, i, body);
    forall k | 0 <= k < |blocks|
      ensures KeepsMarkers(blocks[k], bodies[k]) && (k != i ==> ReadBack(blocks[k], bodies[k]) == blocks[k])
    {
      OwnContentsAreKept(blocks, tail, k);
    }
  }

  lemma {:induction false} OwnContentsAreKept(blocks: seq<Block>, tail: string, k: nat)
    requires WellFormed(blocks, tail) && k < |blocks|
    ensures KeepsMarkers(blocks[k], blocks[k].content) && ReadBack(blocks[k], blocks[k].content) == blocks[k]
  {
    hide KeepsMarkers, ReadBack, GoodBlock;
    OwnContentIsKept(blocks[k], k);
  }

  lemma {:induction false} OwnContentIsKept(b: Block, index: nat)
    requires GoodBlock(b, index)
    ensures KeepsMarkers(b, b.content) && ReadBack(b, b.content) == b
  {
    hide MarkerFree, GoodFrame;
    EmptyMarkerFree();
    assert "" + b.endLine == b.endLine;
  }

  lemma {:induction false} VisibleRestIsNotRead(blocks: seq<Block>, tail: string, i: nat, body: string)
    requires WellFormed(blocks, tail) && i < |blocks| && blocks[i].newline == ""
    requires MarkerFree(WholeLines(body)) && !IsBlank(Rest(body))
    ensures Parse(Unparse(blocks[i := blocks[i].(content := body)], tail)).error.Some?
  {
    hide Run, SplitLines, MarkerFree, Terminated, MarkerOf, NameAt, ValidName, IsLine, IsBlank, WholeLength, Unparse;
    var b, changed := blocks[i], blocks[i := blocks[i].(content := body)];
    var prefix, rest := Unparse(blocks[..i], ""), Unparse(blocks[i + 1..], tail);
    var whole, line := WholeLines(body), Rest(body) + b.endLine;
    UnparseSplit(changed, tail, i);
    assert changed[..i] == blocks[..i] && changed[i + 1..] == blocks[i + 1..];
    assert GoodBlock(b, i);
    RestOfWellFormed(blocks, tail, i);
    var more := b.before + (b.startLine + (whole + (line + rest)));
    assert changed[i].Text() + rest == more by { Regrouped(b, body, rest); }
    RunPrefix(blocks, tail, i, more);
    var st := State(blocks[..i], "", None, "");
    LinePrefixed(Rest(body), b.endLine);
    PrefixedEnd(Rest(body), b.endLine);
    OpenedNeverCloses(blocks, tail, i, whole, line, st);
  }

  lemma {:induction false} Regrouped(b: Block, body: string, rest: string)
    requires b.newline == ""
    ensures b.(content := body).Text() + rest
         == b.before + (b.startLine + (WholeLines(body) + (Rest(body) + b.endLine + rest)))
  {
    hide WholeLength;
    Pieces(body);
    assert b.(content := body).Text() == b.before + b.startLine + body + b.endLine;
  }

  /** Reading a START line, plain whole lines and a line that is not an END leaves the block
      open for good. */
  lemma {:induction false} OpenedNeverCloses(
      blocks: seq<Block>, tail: string, i: nat, whole: string, line: string, st: State)
    requires WellFormed(blocks, tail) && i < |blocks| && st == State(blocks[..i], "", None, "")
    requires Terminated(whole) && MarkerFree(whole) && IsLine(line) && MarkerOf(line) != EndMarker
    requires Terminated(line) || Unparse(blocks[i + 1..], tail) == ""
    ensures var rest := Unparse(blocks[i + 1..], tail);
            NotClosed(Run(SplitLines(blocks[i].before + (blocks[i].startLine + (whole + (line + rest)))), st))
  {
    hide Run, SplitLines, MarkerFree, Terminated, MarkerOf, NameAt, ValidName, IsLine, Unparse;
    var b, rest := blocks[i], Unparse(blocks[i + 1..], tail);
    RestOfWellFormed(blocks, tail, i);
    SplitConcat(b.before, b.startLine + (whole + (line + rest)));
    SplitOneLine(b.startLine, whole + (line + rest));
    SplitConcat(whole, line + rest);
    SplitOneLine(line, rest);
    RunPlainText(b.before, st);
    var inside := SplitLines(whole) + ([line] + SplitLines(rest));
    RunConcat(SplitLines(b.before), [b.startLine] + inside, st);
    var st1 := st.(before := st.before + b.before);
    var st2 := st1.(open := Some(Opening(b.startLine, b.name)), region := "");
    StartOpens(b, i, st1);
    RunNext(b.startLine, inside, st1);
    RunPlainText(whole, st2);
    RunConcat(SplitLines(whole), [line] + SplitLines(rest), st2);
    var st3 := st2.(region := st2.region + whole);
    RunOne(line, SplitLines(rest), st3);
    if Step(st3, line).Next? { RestNeverCloses(blocks, tail, i + 1, Step(st3, line).st); }
  }

  /** A file that is one block without a name, with the given text between its markers. */
  function Example(body: string): string {
    START + "\n" + body + END + "\n"
  }

  /** The smallest case: a START line directly followed by an END line is one empty block;
      "x" spliced into it makes the file unreadable, "x" with a line end does not. */
  lemma {:induction false} LostEndMarker()
    ensures Parse(Example("")).error.None? && |Parse(Example("")).blocks| == 1
    ensures Parse(Example("x")).error.Some?
    ensures Parse(Example("x\n")).error.None?
  {
    hide *;
    ExampleBlock("");
    PlainX();
    LostInExample("x");
    LostInExample("x\n");
  }

  /** The block of the example, with a body spliced in. */
  function ExampleWith(body: string): Block {
    Block("", START + "\n", "block_0", body, "", END + "\n")
  }

  lemma {:induction false} ExampleBlock(body: string)
    ensures Unparse([ExampleWith(body)], "") == Example(body)
    ensures body == "" ==> Parse(Example(body)) == Parsed([ExampleWith("")], "", None)
    ensures body == "" ==> Parse(Example(body)).error.None? && |Parse(Example(body)).blocks| == 1
  {
    var b := ExampleWith(body);
    assert Unparse([b], "") == Example(body) by {
      hide *;
      UnparseFirst([b], "");
      assert [b][1..] == [];
      UnparseNone("");
      ExampleText(body);
    }
    hide Parse, Unparse, WellFormed, Example;
    if body == "" {
      EmptyBlockIsGood(b);
      ParseInvertsUnparse([b], "");
    }
  }

  lemma ExampleText(body: string)
    ensures ExampleWith(body).Text() + "" == Example(body)
  {
  }

  lemma {:induction false} LostInExample(body: string)
    requires MarkerFree(WholeLines(body))
    ensures Parse(Example(body)).error.None? <==> IsBlank(Rest(body))
  {
    hide Parse, Unparse, MarkerFree, WholeLength, IsBlank, Example;
    ExampleBlock("");
    ExampleBlock(body);
    GluedEndIsLost(Example(""), 0, body);
    assert [ExampleWith("")][0 := ExampleWith(body)] == [ExampleWith(body)];
  }

  lemma {:induction false} PlainX()
    ensures MarkerFree(WholeLines("x")) && MarkerFree(WholeLines("x\n"))
    ensures !IsBlank(Rest("x")) && IsBlank(Rest("x\n"))
  {
    assert WholeLines("x") == "" && Rest("x") == "x" && "x"[0] in "x" && !IsSpace('x');
    assert WholeLines("x\n") == "x\n" && Rest("x\n") == "";
    EmptyMarkerFree();
    OneLineMarker("x\n");
    StripLineEnd("x");
    assert Strip("x") == "x";
  }

  lemma {:induction false} EmptyBlockIsGood(b: Block)
    requires b == Block("", START + "\n", "block_0", "", "", END + "\n")
    ensures WellFormed([b], "")
  {
    hide MarkerFree, MarkerOf, NameAt;
    EmptyMarkerFree();
    MarkersAlone();
    FirstName();
    assert b.before == "" && Terminated(b.before);
  }

  lemma {:induction false} MarkersAlone()
    ensures MarkerOf(START + "\n") == StartMarker("") && MarkerOf(END + "\n") == EndMarker
    ensures IsLine(START + "\n") && IsLine(END + "\n")
  {
    hide StripLeft, StripRight;
    StripLineEnd(START);
    StripLineEnd(END);
    NothingToStrip(START);
    NothingToStrip(END);
    assert START[|START|..] == "" && Strip("") == "" by { NothingToStrip(""); }
  }

  lemma NothingToStrip(s: string)
    requires s != "" ==> !IsSpace(s[0]) && !IsSpace(s[|s| - 1])
    ensures Strip(s) == s
  {
  }

  lemma {:induction false} FirstName()
    ensures NameAt("", 0) == "block_0" && ValidName("block_0")
  {
    assert Digits(0) == "0";
  }
}
