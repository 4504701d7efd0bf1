/** Mutations of one file that may contain EVOLVE-BLOCK regions
    (libreevolve/core/candidate.py): the marker loop with its offsets, the splice loops
    of full mode, and SEARCH/REPLACE edits confined to block contents. */
module CandidateMutation {
  import opened Text
  import opened LineEndings
  import opened EvolveBlocks
  import ApplyDiff
  import DiffBlocks

  // ----- blocks with their offsets

  datatype EvolveBlock = EvolveBlock(
    name: string, start: nat, contentStart: nat, contentEnd: nat, end: nat, content: string)

  function LocateOne(b: Block, at: nat): EvolveBlock {
    var start := at + |b.before|;
    var contentStart := start + |b.startLine|;
    var contentEnd := contentStart + |b.content|;
    EvolveBlock(b.name, start, contentStart, contentEnd, contentEnd + |b.newline| + |b.endLine|, b.content)
  }

  function Locate(blocks: seq<Block>, at: nat): (located: seq<EvolveBlock>)
    ensures |located| == |blocks|
  {
    if blocks == [] then [] else [LocateOne(blocks[0], at)] + Locate(blocks[1..], at + |blocks[0].Text()|)
  }

  lemma {:induction false} LocateAppend(blocks: seq<Block>, b: Block, at: nat)
    ensures Locate(blocks + [b], at) == Locate(blocks, at) + [LocateOne(b, at + |Unparse(blocks, "")|)]
  {
    hide Locate, LocateOne, Block.Text, Unparse;
    UnparseNone("");
    if blocks == [] {
      LocateFirst([b], at);
      LocateNone(at + |b.Text()|);
      assert [b][1..] == [] && [] + [b] == [b];
      LocateNone(at);
    } else {
      var next := at + |blocks[0].Text()|;
      LocateAppend(blocks[1..], b, next);
      assert (blocks + [b])[1..] == blocks[1..] + [b];
      LocateFirst(blocks, at);
      LocateFirst(blocks + [b], at);
      UnparseFirst(blocks, "");
    }
  }

  lemma LocateNone(at: nat)
    ensures Locate([], at) == []
  {
  }

  lemma LocateFirst(blocks: seq<Block>, at: nat)
    requires blocks != []
    ensures Locate(blocks, at) == [LocateOne(blocks[0], at)] + Locate(blocks[1..], at + |blocks[0].Text()|)
  {
  }

  lemma {:induction false} LocateAt(blocks: seq<Block>, at: nat, i: nat)
    requires i < |blocks|
    ensures Locate(blocks, at)[i] == LocateOne(blocks[i], at + |Unparse(blocks[..i], "")|)
  {
    if i == 0 {
      assert blocks[..0] == [];
    } else {
      LocateAt(blocks[1..], at + |blocks[0].Text()|, i - 1);
      assert blocks[..i] == [blocks[0]] + blocks[1..][..i - 1];
    }
  }

  datatype OpenBlock = OpenBlock(name: string, start: nat, contentStart: nat)

  /** The open block of the reader state, by offsets. */
  function OpenAt(st: State): Option<OpenBlock> {
    if st.open.None? then None
    else
      var start := |Unparse(st.blocks, "")| + |st.before|;
      Some(OpenBlock(st.open.value.name, start, start + |st.open.value.startLine|))
  }

  lemma {:induction false} UnparseLength(st: State)
    requires st.open.None? ==> st.region == ""
    ensures |StateText(st)| == |Unparse(st.blocks, "")| + |st.before|
                               + if st.open.Some? then |st.open.value.startLine| + |st.region| else 0
    ensures st.open.Some? ==> StateText(st)[OpenAt(st).value.contentStart..] == st.region
  {
    hide Unparse;
    var open := if st.open.Some? then st.open.value.startLine + st.region else "";
    assert "" + (st.before + open) == st.before + open;
    UnparseTail(st.blocks, "", st.before + open);
    if st.open.Some? {
      DropThree(Unparse(st.blocks, ""), st.before, st.open.value.startLine, st.region);
    }
  }

  lemma DropThree(a: string, b: string, c: string, d: string)
    ensures (a + (b + (c + d)))[|a| + |b| + |c|..] == d
  {
  }

  /** `_parse_evolve_blocks`: one pass over the lines, keeping offsets. */
  method ParseEvolveBlocks(code: string) returns (blocks: seq<EvolveBlock>, error: Option<ParseError>)
    ensures blocks == Locate(Parse(code).blocks, 0)
    ensures error == Parse(code).error
  {
    hide Parse, Run, Inv, Flatten, SplitLines, Unparse, MarkerOf, StateText, LoopInv, NameAt, ValidName, Locate,
         LocateOne, Close, Terminated, Names, NameTaken;
    var lines := SplitLines(code);
    blocks := [];
    var seenNames: set<string> := {};
    var openBlock: Option<OpenBlock> := None;
    var offset: nat := 0;
    ghost var st := INITIAL;
    LoopStarts(code);
    for k := 0 to |lines|
      invariant LoopInv(code, k, st, offset)
      invariant blocks == Locate(st.blocks, 0)
      invariant seenNames == Names(st.blocks)
      invariant openBlock == OpenAt(st)
    {
      var line := lines[k];
      LoopAdvances(code, k, st, offset);
      NamesFacts(st);
      var lineStart, lineEnd := offset, offset + |line|;
      match MarkerOf(line) {
        case NoMarker =>
        case StartMarker(rawName) =>
          if openBlock.Some? { return blocks, Some(NestedStart); }
          var name := NameAt(rawName, |blocks|);
          if !ValidName(name) { return blocks, Some(InvalidName); }
          if name in seenNames { return blocks, Some(DuplicateName); }
          openBlock := Some(OpenBlock(name, lineStart, lineEnd));
        case BadStart =>
          return blocks, Some(InvalidStartMarker);
        case EndMarker =>
          if openBlock.None? { return blocks, Some(OrphanEnd); }
          CloseLocated(code, st, offset, line);
          var open := openBlock.value;
          var contentEnd := lineStart;
          if contentEnd > open.contentStart && code[contentEnd - 1] == LF {
            contentEnd := contentEnd - 1;
          }
          blocks := blocks + [EvolveBlock(open.name, open.start, open.contentStart, contentEnd, lineEnd,
                                          code[open.contentStart..contentEnd])];
          seenNames := seenNames + {open.name};
          openBlock := None;
        case BadEnd =>
          return blocks, Some(InvalidEndMarker);
      }
      st := Step(st, line).st;
      offset := lineEnd;
    }
    LoopEnds(code, st, offset);
    if openBlock.Some? {
      return blocks, Some(MissingEnd);
    }
    return blocks, None;
  }

  function Names(blocks: seq<Block>): set<string> {
    set b <- blocks :: b.name
  }

  ghost predicate LoopInv(code: string, k: nat, st: State, offset: nat) {
    var lines := SplitLines(code);
    && k <= |lines|
    && Inv(st)
    && Run(lines, INITIAL) == Run(lines[k..], st)
    && offset == |StateText(st)| <= |code|
    && code[..offset] == StateText(st)
    && code[offset..] == Flatten(lines[k..])
    && (k < |lines| ==> Terminated(StateText(st)))
  }

  lemma {:induction false} LoopStarts(code: string)
    ensures LoopInv(code, 0, INITIAL, 0)
    ensures Locate([], 0) == [] && Names([]) == {} && OpenAt(INITIAL) == None && INITIAL.blocks == []
  {
    hide Inv;
    InitialInv();
    FlattenSplit(code);
    assert SplitLines(code)[0..] == SplitLines(code) && code[0..] == code;
  }

  /** What one line does to the loop: it reaches the next state, or it ends the parse
      with the error and the blocks read so far. */
  lemma {:induction false} LoopAdvances(code: string, k: nat, st: State, offset: nat)
    requires k < |SplitLines(code)| && LoopInv(code, k, st, offset)
    ensures var line := SplitLines(code)[k];
            && offset + |line| <= |code|
            && (match Step(st, line)
                case Next(st') => LoopInv(code, k + 1, st', offset + |line|)
                case Fail(e) => Parse(code).error == Some(e) && Parse(code).blocks == st.blocks)
    ensures st.open.None? ==> offset == |Unparse(st.blocks, "")| + |st.before| && st.region == ""
    ensures st.open.Some? ==>
              var contentStart := OpenAt(st).value.contentStart;
              && contentStart + |st.region| == offset
              && code[contentStart..offset] == st.region
  {
    hide Inv, Step, StateText, Unparse, OpenAt, SplitLines;
    var lines := SplitLines(code);
    var line := lines[k];
    assert lines[k..][0] == line && lines[k..][1..] == lines[k + 1..];
    assert code[offset..] == line + Flatten(lines[k + 1..]);
    SplitIsProper(code);
    RegionAt(code, st, offset);
    hide Flatten;
    if Step(st, line).Next? {
      StepAdvances(st, line);
      NextOffset(code, offset, line, Flatten(lines[k + 1..]));
    } else {
      assert Run(lines[k..], st) == Outcome(st, Some(Step(st, line).error));
    }
  }

  /** Where the block that is being read starts, and what was read of its content. */
  lemma {:induction false} RegionAt(code: string, st: State, offset: nat)
    requires Inv(st) && offset == |StateText(st)| <= |code| && code[..offset] == StateText(st)
    ensures st.open.None? ==> offset == |Unparse(st.blocks, "")| + |st.before| && st.region == ""
    ensures st.open.Some? ==>
              var contentStart := OpenAt(st).value.contentStart;
              && contentStart + |st.region| == offset
              && code[contentStart..offset] == st.region
  {
    hide Inv, StateText, Unparse;
    ClosedRegion(st);
    UnparseLength(st);
    if st.open.Some? {
      var contentStart := OpenAt(st).value.contentStart;
      assert code[contentStart..offset] == code[..offset][contentStart..];
    }
  }

  /** The block recorded at an END marker is the one the reader state closes. */
  lemma {:induction false} CloseLocated(code: string, st: State, offset: nat, line: string)
    requires st.open.Some? && offset <= |code|
    requires var contentStart := OpenAt(st).value.contentStart;
             contentStart + |st.region| == offset && code[contentStart..offset] == st.region
    ensures var open := OpenAt(st).value;
            var contentEnd := if offset > open.contentStart && code[offset - 1] == LF then offset - 1 else offset;
            && Close(st, line).open == None
            && Names(Close(st, line).blocks) == Names(st.blocks) + {open.name}
            && Locate(Close(st, line).blocks, 0)
               == Locate(st.blocks, 0)
                  + [EvolveBlock(open.name, open.start, open.contentStart, contentEnd, offset + |line|,
                                 code[open.contentStart..contentEnd])]
  {
    hide Unparse, Locate, Names;
    var contentStart := OpenAt(st).value.contentStart;
    var n := ContentLength(st.region);
    assert st.region != "" ==> st.region[|st.region| - 1] == code[offset - 1];
    assert st.region[..n] == code[contentStart..contentStart + n];
    var b := Close(st, line).blocks[|st.blocks|];
    assert Close(st, line) == State(st.blocks + [b], "", None, "");
    LocateAppend(st.blocks, b, 0);
    NamesAppend(st.blocks, b);
  }

  lemma {:induction false} NamesAppend(blocks: seq<Block>, b: Block)
    ensures Names(blocks + [b]) == Names(blocks) + {b.name}
  {
    assert forall x :: x in blocks + [b] <==> x in blocks || x == b;
  }

  lemma {:induction false} NextOffset(code: string, offset: nat, line: string, rest: string)
    requires offset <= |code| && code[offset..] == line + rest
    ensures offset + |line| <= |code|
    ensures code[..offset + |line|] == code[..offset] + line
    ensures code[offset + |line|..] == rest
  {
    assert code == code[..offset] + (line + rest);
  }

  lemma {:induction false} LoopEnds(code: string, st: State, offset: nat)
    requires LoopInv(code, |SplitLines(code)|, st, offset)
    ensures Parse(code).blocks == st.blocks
    ensures Parse(code).error == if st.open.Some? then Some(MissingEnd) else None
  {
    hide Inv;
    assert SplitLines(code)[|SplitLines(code)|..] == [];
  }

  lemma {:induction false} NamesFacts(st: State)
    ensures forall name :: name in Names(st.blocks) <==> NameTaken(st.blocks, name)
  {
    hide Locate;
  }

  // ----- splicing

  function SpliceAt(text: string, from: nat, to: nat, body: string): string
    requires from <= to <= |text|
  {
    text[..from] + body + text[to..]
  }

  /** Replacing the located range of a block replaces exactly its content. */
  lemma {:induction false} SpliceOne(prefix: string, b: Block, rest: string, body: string)
    ensures var l := LocateOne(b, |prefix|);
            && l.contentStart <= l.contentEnd <= |prefix + b.Text() + rest|
            && SpliceAt(prefix + b.Text() + rest, l.contentStart, l.contentEnd, body)
               == prefix + b.(content := body).Text() + rest
  {
    var head := prefix + b.before + b.startLine;
    var foot := b.newline + b.endLine + rest;
    AroundContent(prefix, b, rest);
    AroundContent(prefix, b.(content := body), rest);
    assert (head + b.content + foot)[..|head|] == head;
    assert (head + b.content + foot)[|head| + |b.content|..] == foot;
  }

  lemma AroundContent(prefix: string, b: Block, rest: string)
    ensures prefix + b.Text() + rest == (prefix + b.before + b.startLine) + b.content + (b.newline + b.endLine + rest)
  {
  }

  lemma {:induction false} UnparseSplit(blocks: seq<Block>, tail: string, i: nat)
    requires i <= |blocks|
    ensures Unparse(blocks, tail) == Unparse(blocks[..i], "") + Unparse(blocks[i..], tail)
    ensures i < |blocks| ==> Unparse(blocks[i..], tail) == blocks[i].Text() + Unparse(blocks[i + 1..], tail)
    ensures i < |blocks| ==> Unparse(blocks[..i + 1], "") == Unparse(blocks[..i], "") + blocks[i].Text()
  {
    hide Unparse, Block.Text;
    UnparseConcat(blocks[..i], blocks[i..], tail);
    assert blocks[..i] + blocks[i..] == blocks;
    if i < |blocks| {
      UnparseFirst(blocks[i..], tail);
      assert blocks[i..][1..] == blocks[i + 1..];
      UnparseConcat(blocks[..i], [blocks[i]], "");
      UnparseFirst([blocks[i]], "");
      assert blocks[..i] + [blocks[i]] == blocks[..i + 1];
      assert [blocks[i]][1..] == [];
      UnparseNone("");
      assert blocks[i].Text() + "" == blocks[i].Text();
    }
  }

  lemma UnparseNone(tail: string)
    ensures Unparse([], tail) == tail
  {
  }

  lemma UnparseFirst(blocks: seq<Block>, tail: string)
    requires blocks != []
    ensures Unparse(blocks, tail) == blocks[0].Text() + Unparse(blocks[1..], tail)
  {
  }

  lemma {:induction false} UnparseConcat(a: seq<Block>, b: seq<Block>, tail: string)
    ensures Unparse(a + b, tail) == Unparse(a, "") + Unparse(b, tail)
    decreases |a|
  {
    hide Unparse, Block.Text;
    UnparseNone("");
    if a == [] {
      assert a + b == b;
    } else {
      UnparseConcat(a[1..], b, tail);
      assert (a + b)[1..] == a[1..] + b;
      UnparseFirst(a, "");
      UnparseFirst(a + b, tail);
      ConcatAssociates(a[0].Text(), Unparse(a[1..], ""), Unparse(b, tail));
    }
  }

  /** One block's content replaced in the text of a whole file. */
  lemma {:induction false} SpliceInFile(blocks: seq<Block>, tail: string, i: nat, body: string)
    requires i < |blocks|
    ensures var l, text := Locate(blocks, 0)[i], Unparse(blocks, tail);
            && l.contentStart <= l.contentEnd <= |text|
            && SpliceAt(text, l.contentStart, l.contentEnd, body)
               == Unparse(blocks[i := blocks[i].(content := body)], tail)
  {
    hide Unparse, SpliceAt, LocateOne, Locate;
    var prefix, rest := Unparse(blocks[..i], ""), Unparse(blocks[i + 1..], tail);
    var changed := blocks[i := blocks[i].(content := body)];
    LocateAt(blocks, 0, i);
    UnparseSplit(blocks, tail, i);
    UnparseSplit(changed, tail, i);
    assert changed[..i] == blocks[..i] && changed[i + 1..] == blocks[i + 1..];
    ConcatAssociates(prefix, blocks[i].Text(), rest);
    ConcatAssociates(prefix, changed[i].Text(), rest);
    SpliceOne(prefix, blocks[i], rest, body);
  }

  // ----- full mode

  datatype SectionError = EmptyName | InvalidSectionName | DuplicateSectionName | UnknownName

  datatype MutationError = Section(section: SectionError) | MissingBlockSections | Edits(edit: DiffError)

  /** A full-mode response: its text and, when it has BLOCK sections, their headers and
      bodies in order. */
  datatype Payload = Payload(text: string, sections: Option<seq<(string, string)>>)

  /** The section bodies by block name, or the first thing wrong with a header. */
  function Collect(sections: seq<(string, string)>, acc: map<string, string>)
    : Result<map<string, string>, MutationError>
  {
    if sections == [] then Ok(acc)
    else
      var name := Strip(sections[0].0);
      if name == "" then Err(Section(EmptyName))
      else if !ValidName(name) then Err(Section(InvalidSectionName))
      else if name in acc then Err(Section(DuplicateSectionName))
      else Collect(sections[1..], acc[name := sections[0].1])
  }

  /** Contents after simultaneous substitution of the named bodies. */
  function NewContents(blocks: seq<Block>, bodies: map<string, string>): seq<string> {
    seq(|blocks|, i requires 0 <= i < |blocks| =>
      if blocks[i].name in bodies then bodies[blocks[i].name] else blocks[i].content)
  }

  function Substituted(p: Parsed, bodies: map<string, string>): string {
    Unparse(WithContents(p.blocks, NewContents(p.blocks, bodies)), p.tail)
  }

  function Changed(code: string, result: string): Result<string, MutationError> {
    if result == code then Err(Edits(NoValidChanges)) else Ok(result)
  }

  function NamedReplacement(code: string, sections: seq<(string, string)>): Result<string, MutationError> {
    var p := Parse(code);
    match Collect(sections, map[])
    case Err(e) => Err(e)
    case Ok(bodies) =>
      if bodies == map[] then Err(MissingBlockSections)
      else if exists name <- bodies :: name !in Names(p.blocks) then Err(Section(UnknownName))
      else Changed(code, Substituted(p, bodies))
  }

  /** `_apply_full_replacement`. */
  function FullReplacement(code: string, payload: Payload): Result<string, MutationError> {
    var p := Parse(code);
    if p.blocks == [] then Changed(code, payload.text)
    else if payload.sections.Some? then NamedReplacement(code, payload.sections.value)
    else if |p.blocks| == 1 then
      if payload.text == p.blocks[0].content then Err(Edits(NoValidChanges))
      else Ok(Unparse([p.blocks[0].(content := payload.text)], p.tail))
    else Err(MissingBlockSections)
  }

  method CollectSections(sections: seq<(string, string)>) returns (r: Result<map<string, string>, MutationError>)
    ensures r == Collect(sections, map[])
  {
    var bodies: map<string, string> := map[];
    for i := 0 to |sections|
      invariant Collect(sections, map[]) == Collect(sections[i..], bodies)
    {
      var name := Strip(sections[i].0);
      assert sections[i..][0] == sections[i] && sections[i..][1..] == sections[i + 1..];
      if name == "" { return Err(Section(EmptyName)); }
      if !ValidName(name) { return Err(Section(InvalidSectionName)); }
      if name in bodies { return Err(Section(DuplicateSectionName)); }
      bodies := bodies[name := sections[i].1];
    }
    return Ok(bodies);
  }

  /** The splice loop of `_apply_named_block_replacement`: last block first, so that the
      offsets of earlier blocks stay valid. The result is the simultaneous substitution. */
  method SpliceReversed(code: string, located: seq<EvolveBlock>, bodies: map<string, string>) returns (result: string)
    requires Parse(code).error.None? && located == Locate(Parse(code).blocks, 0)
    ensures result == Substituted(Parse(code), bodies)
  {
    hide Parse, Unparse, Locate, SpliceAt;
    ghost var p := Parse(code);
    ghost var contents := NewContents(p.blocks, bodies);
    UnparseInvertsParse(code);
    result := code;
    ghost var done := p.blocks;
    var i := |located|;
    while i > 0
      invariant i <= |located| && |done| == |p.blocks|
      invariant result == Unparse(done, p.tail)
      invariant forall k :: 0 <= k < |done| ==>
                              done[k] == if k < i then p.blocks[k] else p.blocks[k].(content := contents[k])
    {
      i := i - 1;
      SameLocation(p.blocks, done, i);
      if located[i].name in bodies {
        SpliceInFile(done, p.tail, i, bodies[located[i].name]);
        result := SpliceAt(result, located[i].contentStart, located[i].contentEnd, bodies[located[i].name]);
        done := done[i := done[i].(content := contents[i])];
      }
    }
    assert done == WithContents(p.blocks, contents);
  }

  lemma {:induction false} SameLocation(a: seq<Block>, b: seq<Block>, i: nat)
    requires |a| == |b| && i < |a| && forall k :: 0 <= k <= i ==> a[k] == b[k]
    ensures Locate(a, 0)[i] == Locate(b, 0)[i] == LocateOne(a[i], |Unparse(a[..i], "")|)
    ensures Locate(a, 0)[i].name == a[i].name
  {
    LocateAt(a, 0, i);
    LocateAt(b, 0, i);
    assert a[..i] == b[..i];
  }

  method ApplyFullReplacement(code: string, payload: Payload) returns (r: Result<string, MutationError>)
    requires Parse(code).error.None?
    ensures r == FullReplacement(code, payload)
  {
    hide Parse, Unparse, Locate, Collect, SpliceAt;
    var blocks, _ := ParseEvolveBlocks(code);
    if blocks == [] {
      return Changed(code, payload.text);
    }
    if payload.sections.Some? {
      var collected := CollectSections(payload.sections.value);
      if collected.Err? { return Err(collected.error); }
      var bodies := collected.value;
      if bodies == map[] { return Err(MissingBlockSections); }
      LocatedNames(Parse(code).blocks, 0);
      if exists name <- bodies :: name !in set b <- blocks :: b.name {
        return Err(Section(UnknownName));
      }
      var result := SpliceReversed(code, blocks, bodies);
      return Changed(code, result);
    }
    if |blocks| == 1 {
      var block := blocks[0];
      ghost var p := Parse(code);
      UnparseInvertsParse(code);
      SameLocation(p.blocks, p.blocks, 0);
      SpliceInFile(p.blocks, p.tail, 0, payload.text);
      assert p.blocks[0 := p.blocks[0].(content := payload.text)] == [p.blocks[0].(content := payload.text)];
      if payload.text == block.content { return Err(Edits(NoValidChanges)); }
      return Ok(SpliceAt(code, block.contentStart, block.contentEnd, payload.text));
    }
    return Err(MissingBlockSections);
  }

  lemma {:induction false} LocatedNames(blocks: seq<Block>, at: nat)
    ensures (set b <- Locate(blocks, at) :: b.name) == Names(blocks)
  {
    var located := Locate(blocks, at);
    forall i | 0 <= i < |blocks|
      ensures located[i].name == blocks[i].name
    {
      LocateAt(blocks, at, i);
    }
    forall name
      ensures name in (set b <- located :: b.name) <==> name in Names(blocks)
    {
      if name in Names(blocks) {
        var i :| 0 <= i < |blocks| && blocks[i].name == name;
        assert located[i] in located;
      }
      if name in (set b <- located :: b.name) {
        var i :| 0 <= i < |located| && located[i].name == name;
        assert blocks[i] in blocks;
      }
    }
  }

  predicate SameFrame(a: Block, b: Block) {
    a.(content := "") == b.(content := "")
  }

  /** Same text outside block contents, same names in the same order. */
  predicate SameSkeleton(p: Parsed, q: Parsed) {
    && p.tail == q.tail && |p.blocks| == |q.blocks|
    && forall i :: 0 <= i < |p.blocks| ==> SameFrame(p.blocks[i], q.blocks[i])
  }

  /** A section body that its block can hold: no marker line, and empty when the END line
      follows the START line directly. */
  predicate Fits(b: Block, body: string) {
    MarkerFree(body) && (b.newline == "\n" || body == "")
  }

  /** Named replacement, read back: the skeleton and the names are kept, each named block
      holds its section body and every other block its old content, if and only if every
      body fits the block it is for. */
  lemma {:induction false} NamedReplacementReparses(code: string, sections: seq<(string, string)>)
    requires Parse(code).error.None? && NamedReplacement(code, sections).Ok?
    ensures Collect(sections, map[]).Ok?
    ensures var p, bodies := Parse(code), Collect(sections, map[]).value;
            var spliced := WithContents(p.blocks, NewContents(p.blocks, bodies));
            && bodies.Keys <= Names(p.blocks)
            && (Parse(NamedReplacement(code, sections).value) == Parsed(spliced, p.tail, None)
                <==> forall b <- p.blocks :: b.name in bodies ==> Fits(b, bodies[b.name]))
  {
    hide Parse, MarkerFree, Unparse, Collect, Readable, Fits, WithContents, NamedReplacement, Names, WellFormed;
    NamedReplacementIsSubstitution(code, sections);
    var p, bodies := Parse(code), Collect(sections, map[]).value;
    ReparseAfterSplice(code, NewContents(p.blocks, bodies));
    UnparseInvertsParse(code);
    FitsIsReadable(p.blocks, p.tail, bodies);
  }

  lemma {:induction false} NamedReplacementIsSubstitution(code: string, sections: seq<(string, string)>)
    requires NamedReplacement(code, sections).Ok?
    ensures Collect(sections, map[]).Ok?
    ensures var p, bodies := Parse(code), Collect(sections, map[]).value;
            && bodies.Keys <= Names(p.blocks)
            && NamedReplacement(code, sections).value
               == Unparse(WithContents(p.blocks, NewContents(p.blocks, bodies)), p.tail)
  {
    hide Parse, Unparse, Collect, Names;
  }

  lemma {:induction false} FitsIsReadable(blocks: seq<Block>, tail: string, bodies: map<string, string>)
    requires WellFormed(blocks, tail)
    ensures Readable(blocks, NewContents(blocks, bodies))
            <==> forall b <- blocks :: b.name in bodies ==> Fits(b, bodies[b.name])
  {
    hide MarkerFree, GoodFrame;
    var contents := NewContents(blocks, bodies);
    forall i | 0 <= i < |blocks|
      ensures blocks[i].name !in bodies ==> Fits(blocks[i], contents[i])
      ensures blocks[i].name in bodies ==> contents[i] == bodies[blocks[i].name]
      ensures blocks[i] in blocks
    {
      assert GoodBlock(blocks[i], i);
    }
    if Readable(blocks, contents) {
      forall b | b in blocks && b.name in bodies
        ensures Fits(b, bodies[b.name])
      {
        var i :| 0 <= i < |blocks| && blocks[i] == b;
      }
    }
  }

  /** Why the newline matters: a non-empty body put between a START line and an END line
      that follow each other directly is never read back as exactly that content.  What is
      read back instead, and when, is the subject of AdjacentMarkers. */
  lemma {:induction false} BodyBeforeEndIsNotExact(code: string, i: nat, body: string)
    requires Parse(code).error.None? && i < |Parse(code).blocks|
    requires Parse(code).blocks[i].newline == "" && body != ""
    ensures var p := Parse(code);
            var spliced := p.blocks[i := p.blocks[i].(content := body)];
            Parse(Unparse(spliced, p.tail)) != Parsed(spliced, p.tail, None)
  {
    hide Parse, MarkerFree, Unparse;
    var p := Parse(code);
    var contents := OneChanged(p.blocks, i, body);
    assert WithContents(p.blocks, contents) == p.blocks[i := p.blocks[i].(content := body)];
    ReparseAfterSplice(code, contents);
    assert contents[i] == body;
  }

  function OneChanged(blocks: seq<Block>, i: nat, body: string): seq<string> {
    seq(|blocks|, k requires 0 <= k < |blocks| => if k == i then body else blocks[k].content)
  }

  // ----- diff mode

  datatype Target = AtBlock(index: nat) | NotFound | Ambiguous

  /** Indices of the blocks in which the search text matches exactly once. */
  function MatchingBlocks(blocks: seq<EvolveBlock>, search: string): seq<nat> {
    if blocks == [] then []
    else
      var n := |blocks| - 1;
      MatchingBlocks(blocks[..n], search) + if TolerantMatches(blocks[n].content, search) == 1 then [n] else []
  }

  function FindTarget(blocks: seq<EvolveBlock>, search: string): Target {
    var matches := MatchingBlocks(blocks, search);
    if exists b <- blocks :: TolerantMatches(b.content, search) > 1 then Ambiguous
    else if matches == [] then NotFound
    else if |matches| > 1 then Ambiguous
    else AtBlock(matches[0])
  }

  lemma {:induction false} MatchingBlocksMatch(blocks: seq<EvolveBlock>, search: string)
    ensures forall i <- MatchingBlocks(blocks, search) ::
              i < |blocks| && TolerantMatches(blocks[i].content, search) == 1
  {
    if blocks != [] {
      var n := |blocks| - 1;
      MatchingBlocksMatch(blocks[..n], search);
    }
  }

  lemma {:induction false} TargetMatches(blocks: seq<EvolveBlock>, search: string)
    ensures var t := FindTarget(blocks, search);
            t.AtBlock? ==> t.index < |blocks| && TolerantMatches(blocks[t.index].content, search) == 1
  {
    hide TolerantMatches;
    MatchingBlocksMatch(blocks, search);
    var matches := MatchingBlocks(blocks, search);
    assert matches != [] ==> matches[0] in matches;
  }

  lemma {:induction false} MatchingBlocksAreAll(blocks: seq<EvolveBlock>, search: string)
    ensures forall i :: 0 <= i < |blocks| && TolerantMatches(blocks[i].content, search) == 1 ==>
                          i in MatchingBlocks(blocks, search)
    ensures forall a, b :: 0 <= a < b < |MatchingBlocks(blocks, search)| ==>
                             MatchingBlocks(blocks, search)[a] < MatchingBlocks(blocks, search)[b]
  {
    hide TolerantMatches;
    if blocks != [] {
      var n := |blocks| - 1;
      MatchingBlocksAreAll(blocks[..n], search);
      MatchingBlocksMatch(blocks[..n], search);
      var before, all := MatchingBlocks(blocks[..n], search), MatchingBlocks(blocks, search);
      forall i | 0 <= i < |blocks| && TolerantMatches(blocks[i].content, search) == 1
        ensures i in all
      {
        if i < n { assert blocks[..n][i] == blocks[i] && i in before; } else { assert all[|before|] == n; }
      }
      forall a, b | 0 <= a < b < |all| ensures all[a] < all[b] {
        assert a < |before| && all[a] == before[a] && before[a] in before;
      }
    }
  }

  /** Block i is the only one in which the search text matches, and it matches there once. */
  predicate OnlyMatch(contents: seq<string>, search: string, i: nat) {
    && i < |contents| && TolerantMatches(contents[i], search) == 1
    && forall k :: 0 <= k < |contents| && k != i ==> TolerantMatches(contents[k], search) == 0
  }

  predicate NoMatch(contents: seq<string>, search: string) {
    forall content <- contents :: TolerantMatches(content, search) == 0
  }

  function ContentsOf(blocks: seq<EvolveBlock>): (contents: seq<string>)
    ensures |contents| == |blocks| && forall i :: 0 <= i < |blocks| ==> contents[i] == blocks[i].content
  {
    seq(|blocks|, i requires 0 <= i < |blocks| => blocks[i].content)
  }

  /** Which block an edit is for, by the matches in all blocks: the one with a single match
      when nothing matches elsewhere; none when nothing matches at all; and in every other
      case the search is ambiguous. */
  lemma {:induction false} TargetMeaning(blocks: seq<EvolveBlock>, search: string)
    ensures forall i :: FindTarget(blocks, search) == AtBlock(i) <==> OnlyMatch(ContentsOf(blocks), search, i)
    ensures FindTarget(blocks, search) == NotFound <==> NoMatch(ContentsOf(blocks), search)
  {
    hide TolerantMatches;
    var contents, matches := ContentsOf(blocks), MatchingBlocks(blocks, search);
    MatchingBlocksMatch(blocks, search);
    MatchingBlocksAreAll(blocks, search);
    hide MatchingBlocks;
    if b :| b in blocks && TolerantMatches(b.content, search) > 1 {
      var k :| 0 <= k < |blocks| && blocks[k] == b;
      assert contents[k] in contents;
    } else {
      assert forall k :: 0 <= k < |blocks| ==> blocks[k] in blocks && contents[k] in contents;
      assert forall m <- matches :: contents[m] in contents;
      if matches != [] { assert matches[0] in matches; }
      if |matches| > 1 {
        assert matches[1] in matches && matches[0] < matches[1];
        assert TolerantMatches(contents[matches[0]], search) == TolerantMatches(contents[matches[1]], search) == 1;
      }
    }
  }

  lemma {:induction false} LocatedInText(code: string, i: nat)
    requires i < |Parse(code).blocks|
    ensures var l := Locate(Parse(code).blocks, 0)[i]; l.contentStart <= l.contentEnd <= |code|
  {
    hide Parse, Unparse, GoodBlocks, Locate;
    var blocks := Parse(code).blocks;
    ParsedBlocksAreGood(code);
    LocateAt(blocks, 0, i);
    UnparseSplit(blocks, "", i);
    assert |Unparse(blocks, "")| >= |Unparse(blocks[..i], "")| + |blocks[i].Text()|;
  }

  /** One SEARCH/REPLACE pair: the only block in which the search text matches, and it
      must match there once, has its content edited. Blocks are found by parsing the
      current text. */
  function EditStep(code: string, e: Edit): Result<string, MutationError> {
    var located := Locate(Parse(code).blocks, 0);
    if IsBlank(e.search) then Err(Edits(SearchNotFound))
    else match FindTarget(located, e.search)
      case NotFound => Err(Edits(SearchNotFound))
      case Ambiguous => Err(Edits(AmbiguousSearchMatch))
      case AtBlock(i) =>
        TargetMatches(located, e.search);
        LocatedInText(code, i);
        var l := located[i];
        Ok(SpliceAt(code, l.contentStart, l.contentEnd, ReplaceTolerant(l.content, e.search, e.replacement)))
  }

  function EditBlocks(code: string, edits: seq<Edit>): Result<string, MutationError>
    decreases |edits|
  {
    if edits == [] then Ok(code)
    else match EditStep(code, edits[0])
      case Err(e) => Err(e)
      case Ok(next) => EditBlocks(next, edits[1..])
  }

  /** `_apply_diff_to_candidate` for a candidate with blocks. */
  function DiffReplacement(code: string, edits: seq<Edit>): Result<string, MutationError> {
    if edits == [] then Err(Edits(NoDiffBlocks))
    else match EditBlocks(code, edits)
      case Err(e) => Err(e)
      case Ok(result) => Changed(code, result)
  }

  method TargetBlock(blocks: seq<EvolveBlock>, search: string) returns (t: Target)
    ensures t == FindTarget(blocks, search)
  {
    hide TolerantMatches;
    var matches: seq<nat> := [];
    for i := 0 to |blocks|
      invariant matches == MatchingBlocks(blocks[..i], search)
      invariant forall k :: 0 <= k < i ==> TolerantMatches(blocks[k].content, search) <= 1
    {
      var count := TolerantMatches(blocks[i].content, search);
      assert blocks[..i + 1][..i] == blocks[..i];
      if count > 1 {
        assert blocks[i] in blocks;
        return Ambiguous;
      }
      if count == 1 {
        matches := matches + [i];
      }
    }
    assert blocks[..|blocks|] == blocks;
    return if matches == [] then NotFound else if |matches| > 1 then Ambiguous else AtBlock(matches[0]);
  }

  method ApplyDiffToCandidate(code: string, edits: seq<Edit>) returns (r: Result<string, MutationError>)
    ensures r == DiffReplacement(code, edits)
  {
    hide Parse, Locate, FindTarget, SpliceAt, ReplaceTolerant, IsBlank;
    if edits == [] {
      return Err(Edits(NoDiffBlocks));
    }
    var result := code;
    for k := 0 to |edits|
      invariant EditBlocks(code, edits) == EditBlocks(result, edits[k..])
    {
      var e := edits[k];
      assert edits[k..][0] == e && edits[k..][1..] == edits[k + 1..];
      if IsBlank(e.search) { return Err(Edits(SearchNotFound)); }
      var blocks, _ := ParseEvolveBlocks(result);
      var target := TargetBlock(blocks, e.search);
      match target {
        case NotFound => return Err(Edits(SearchNotFound));
        case Ambiguous => return Err(Edits(AmbiguousSearchMatch));
        case AtBlock(i) =>
          TargetMatches(blocks, e.search);
          LocatedInText(result, i);
          var newContent := ReplaceLineEndingTolerant(blocks[i].content, e.search, e.replacement);
          result := SpliceAt(result, blocks[i].contentStart, blocks[i].contentEnd, newContent);
      }
    }
    return Changed(code, result);
  }

  function AsResult(result: string, error: Option<DiffError>): Result<string, MutationError> {
    if error.None? then Ok(result) else Err(Edits(error.value))
  }

  /** `_apply_diff_to_candidate`: without blocks the response edits the whole text. */
  method ApplyDiffResponse(code: string, response: string, strippers: DiffBlocks.Strippers)
    returns (r: Result<string, MutationError>)
    ensures r == if Parse(code).blocks == [] then
                   var (result, error) := ApplyDiff.Outcome(code, response, strippers); AsResult(result, error)
                 else DiffReplacement(code, DiffBlocks.ParseDiffBlocks(response))
  {
    hide Parse, Locate, ApplyDiff.Outcome, DiffReplacement, DiffBlocks.ParseDiffBlocks;
    var blocks, _ := ParseEvolveBlocks(code);
    if blocks == [] {
      var result, error := ApplyDiff.Apply(code, response, strippers);
      return AsResult(result, error);
    }
    r := ApplyDiffToCandidate(code, DiffBlocks.ParseDiffBlocks(response));
  }

  // ----- diff mode keeps the skeleton

  /** The content that an edit step writes, or None when the step fails. */
  function StepContent(code: string, e: Edit): Option<(nat, string)> {
    var p := Parse(code);
    var t := FindTarget(Locate(p.blocks, 0), e.search);
    if IsBlank(e.search) || !t.AtBlock? then None
    else
      TargetMatches(Locate(p.blocks, 0), e.search);
      Some((t.index, ReplaceTolerant(p.blocks[t.index].content, e.search, e.replacement)))
  }

  lemma {:induction false} NonBlankNeedsContent(content: string, search: string)
    requires !IsBlank(search) && TolerantMatches(content, search) == 1
    ensures content != ""
  {
    NormalizersAgree(search);
    assert search != "";
    CountMeaning(Norm(content), Norm(search));
  }

  /** One edit step changes the content of one block. Parsing the result finds exactly
      that, if and only if the new content holds no marker line. */
  lemma {:induction false} EditStepKeepsSkeleton(code: string, e: Edit)
    requires Parse(code).error.None? && EditStep(code, e).Ok?
    ensures StepContent(code, e).Some? && StepContent(code, e).value.0 < |Parse(code).blocks|
    ensures var p, (i, content) := Parse(code), StepContent(code, e).value;
            Parse(EditStep(code, e).value) == Parsed(p.blocks[i := p.blocks[i].(content := content)], p.tail, None)
            <==> MarkerFree(content)
  {
    hide Parse, MarkerFree, Unparse, EditStep, StepContent, GoodFrame, AfterBlocks;
    EditStepText(code, e);
    TailAfterBlocks(code);
    var (i, content) := StepContent(code, e).value;
    UnparseInvertsParse(code);
    OneReparse(code, i, content);
  }

  /** The part of a file after its blocks. */
  function AfterBlocks(code: string): (rest: string)
    ensures code == Unparse(Parse(code).blocks, rest)
  {
    BlocksComeFirst(code);
    code[|Unparse(Parse(code).blocks, "")|..]
  }

  lemma {:induction false} BlocksComeFirst(code: string)
    ensures |Unparse(Parse(code).blocks, "")| <= |code|
    ensures code == Unparse(Parse(code).blocks, code[|Unparse(Parse(code).blocks, "")|..])
  {
    hide Parse, Unparse, GoodBlocks;
    ParsedBlocksAreGood(code);
    var rest := code[|Unparse(Parse(code).blocks, "")|..];
    UnparseTail(Parse(code).blocks, "", rest);
    assert "" + rest == rest;
  }

  /** The text that a successful edit step leaves, also in a file with an error after its
      blocks, and that the edited block has a line end. */
  lemma {:induction false} EditStepText(code: string, e: Edit)
    requires EditStep(code, e).Ok?
    ensures StepContent(code, e).Some? && StepContent(code, e).value.0 < |Parse(code).blocks|
    ensures var blocks, (i, content) := Parse(code).blocks, StepContent(code, e).value;
            && EditStep(code, e).value == Unparse(blocks[i := blocks[i].(content := content)], AfterBlocks(code))
            && blocks[i].newline == "\n"
  {
    hide Parse, MarkerFree, Unparse, Locate, FindTarget, SpliceAt, ReplaceTolerant, IsBlank, TolerantMatches, GoodFrame;
    hide AfterBlocks;
    var p := Parse(code);
    var located := Locate(p.blocks, 0);
    var i := FindTarget(located, e.search).index;
    TargetMatches(located, e.search);
    SameLocation(p.blocks, p.blocks, i);
    assert located[i].content == p.blocks[i].content by {
      hide *;
      LocateAt(p.blocks, 0, i);
      LocatedContent(p.blocks[i], 0 + |Unparse(p.blocks[..i], "")|);
    }
    NonBlankNeedsContent(p.blocks[i].content, e.search);
    ParsedBlocksAreGood(code);
    assert GoodBlock(p.blocks[i], i);
    SpliceInFile(p.blocks, AfterBlocks(code), i, ReplaceTolerant(p.blocks[i].content, e.search, e.replacement));
  }

  function BlockContents(blocks: seq<Block>): (contents: seq<string>)
    ensures |contents| == |blocks| && forall i :: 0 <= i < |blocks| ==> contents[i] == blocks[i].content
  {
    seq(|blocks|, i requires 0 <= i < |blocks| => blocks[i].content)
  }

  lemma {:induction false} LocatedContents(blocks: seq<Block>)
    ensures ContentsOf(Locate(blocks, 0)) == BlockContents(blocks)
  {
    hide Locate, Unparse;
    forall i | 0 <= i < |blocks| ensures Locate(blocks, 0)[i].content == blocks[i].content {
      LocateAt(blocks, 0, i);
      LocatedContent(blocks[i], 0 + |Unparse(blocks[..i], "")|);
    }
  }

  /** The text with the edit made in its block i, and nowhere else. */
  predicate IsEdited(code: string, e: Edit, i: nat, result: string) {
    var blocks := Parse(code).blocks;
    && i < |blocks|
    && var content := ReplaceTolerant(blocks[i].content, e.search, e.replacement);
       result == Unparse(blocks[i := blocks[i].(content := content)], AfterBlocks(code))
  }

  /** One edit, by the contents of the blocks of the current text, whether or not the text
      has an error after them: the edit is made in the only block in which the search text
      matches, if that is a single match; nothing else changes.  A blank search text, or one
      that matches nowhere, is not found; any other is ambiguous. */
  lemma {:induction false} EditStepMeaning(code: string, e: Edit)
    ensures var blocks, r := Parse(code).blocks, EditStep(code, e);
            var contents := BlockContents(blocks);
            && (r == Err(Edits(SearchNotFound)) <==> IsBlank(e.search) || NoMatch(contents, e.search))
            && (r.Ok? <==> !IsBlank(e.search) && exists i :: OnlyMatch(contents, e.search, i))
            && (r.Ok? || r == Err(Edits(SearchNotFound)) || r == Err(Edits(AmbiguousSearchMatch)))
            && forall i :: r.Ok? && OnlyMatch(contents, e.search, i) ==> IsEdited(code, e, i, r.value)
  {
    hide Parse, Unparse, Locate, FindTarget, SpliceAt, ReplaceTolerant, IsBlank, TolerantMatches, AfterBlocks;
    var blocks := Parse(code).blocks;
    var located := Locate(blocks, 0);
    TargetMeaning(located, e.search);
    LocatedContents(blocks);
    hide OnlyMatch, NoMatch;
    if EditStep(code, e).Ok? {
      EditStepText(code, e);
      var t := FindTarget(located, e.search).index;
      assert OnlyMatch(BlockContents(blocks), e.search, t);
      forall i | OnlyMatch(BlockContents(blocks), e.search, i) ensures i == t {}
    }
  }

  /** In a file without errors the tail is all there is after the blocks. */
  lemma {:induction false} TailAfterBlocks(code: string)
    requires Parse(code).error.None?
    ensures AfterBlocks(code) == Parse(code).tail
  {
    hide Parse, Unparse, WellFormed, AfterBlocks;
    var p := Parse(code);
    UnparseInvertsParse(code);
    UnparseTail(p.blocks, "", p.tail);
    UnparseTail(p.blocks, "", AfterBlocks(code));
    assert "" + p.tail == p.tail && "" + AfterBlocks(code) == AfterBlocks(code);
    assert code[|Unparse(p.blocks, "")|..] == p.tail;
  }

  lemma LocatedContent(b: Block, at: nat)
    ensures LocateOne(b, at).content == b.content
  {
  }

  lemma {:induction false} OneReparse(code: string, i: nat, content: string)
    requires Parse(code).error.None? && i < |Parse(code).blocks| && Parse(code).blocks[i].newline == "\n"
    ensures var p := Parse(code);
            var changed := p.blocks[i := p.blocks[i].(content := content)];
            Parse(Unparse(changed, p.tail)) == Parsed(changed, p.tail, None) <==> MarkerFree(content)
  {
    hide Parse, MarkerFree, Unparse, GoodFrame;
    var p := Parse(code);
    var contents := OneChanged(p.blocks, i, content);
    assert WithContents(p.blocks, contents) == p.blocks[i := p.blocks[i].(content := content)];
    ReparseAfterSplice(code, contents);
    UnparseInvertsParse(code);
    forall k | 0 <= k < |p.blocks|
      ensures MarkerFree(p.blocks[k].content) && (p.blocks[k].newline == "\n" || p.blocks[k].content == "")
    {
      assert GoodBlock(p.blocks[k], k);
    }
    assert contents[i] == content;
  }

  /** Every content written while the edits are applied is free of marker lines. */
  predicate WritesNoMarkers(code: string, edits: seq<Edit>)
    decreases |edits|
  {
    edits != [] && EditStep(code, edits[0]).Ok? ==>
      && (StepContent(code, edits[0]).Some? ==> MarkerFree(StepContent(code, edits[0]).value.1))
      && WritesNoMarkers(EditStep(code, edits[0]).value, edits[1..])
  }

  /** Any list of edits, each located by parsing the text the previous ones left, keeps
      the skeleton and the block names as long as no new content holds a marker line. */
  lemma {:induction false} EditsKeepSkeleton(code: string, edits: seq<Edit>)
    requires Parse(code).error.None? && WritesNoMarkers(code, edits) && EditBlocks(code, edits).Ok?
    ensures var q := Parse(EditBlocks(code, edits).value); q.error.None? && SameSkeleton(Parse(code), q)
    decreases |edits|
  {
    hide Parse, MarkerFree, EditStep, StepContent;
    if edits != [] {
      EditStepKeepsSkeleton(code, edits[0]);
      EditsKeepSkeleton(EditStep(code, edits[0]).value, edits[1..]);
    }
  }
}
