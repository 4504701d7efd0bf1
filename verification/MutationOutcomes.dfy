/** What a mutation of one file returns (libreevolve/core/candidate.py, lines 1704-1824, and
    libreevolve/core/diff.py, lines 56-78): the text it leaves, edit by edit or block by
    block, and exactly when each error is returned. */
module MutationOutcomes {
  import opened Text
  import opened LineEndings
  import opened DiffBlocks
  import opened EvolveBlocks
  import opened CandidateMutation
  import ApplyDiff

  // ----- edits of a whole text

  /** The texts that the first k edits leave, one after the other: each of them matched exactly
      once and was carried out. */
  predicate EditsRun(code: string, edits: seq<Edit>, texts: seq<string>, k: nat) {
    && k <= |edits| && |texts| == k + 1 && texts[0] == code
    && forall j :: 0 <= j < k ==>
         Taken(texts[j], edits[j]) && texts[j + 1] == ReplaceTolerant(texts[j], edits[j].search, edits[j].replacement)
  }

  /** The edit cannot be carried out, for this reason. */
  predicate Refused(code: string, e: Edit, error: DiffError) {
    var absent := IsBlank(e.search) || TolerantMatches(code, e.search) == 0;
    if absent then error == SearchNotFound
    else TolerantMatches(code, e.search) > 1 && error == AmbiguousSearchMatch
  }

  /** All edits are carried out, and this is the text they leave. */
  ghost predicate RunsTo(code: string, edits: seq<Edit>, result: string) {
    exists texts :: EditsRun(code, edits, texts, |edits|) && result == texts[|edits|]
  }

  /** The edits are carried out up to the first that cannot be, for this reason. */
  ghost predicate StopsWith(code: string, edits: seq<Edit>, error: DiffError) {
    exists texts, k: nat :: k < |edits| && EditsRun(code, edits, texts, k) && Refused(texts[k], edits[k], error)
  }

  /** A list of edits is carried out one after the other; the first that cannot be is reported. */
  lemma {:induction false} EditsMeaning(code: string, edits: seq<Edit>)
    ensures var r := ApplyEdits(code, edits);
            if r.Ok? then RunsTo(code, edits, r.value) else StopsWith(code, edits, r.error)
    decreases |edits|
  {
    hide TolerantMatches, ReplaceTolerant, IsBlank;
    if edits == [] || !Taken(code, edits[0]) {
      assert EditsRun(code, edits, [code], 0);
    } else {
      var e, rest := edits[0], edits[1..];
      var next := ReplaceTolerant(code, e.search, e.replacement);
      EditsMeaning(next, rest);
      var r := ApplyEdits(next, rest);
      if r.Ok? {
        var texts :| EditsRun(next, rest, texts, |rest|) && r.value == texts[|rest|];
        OneMoreEdit(code, edits, texts, |rest|);
        assert ([code] + texts)[|edits|] == r.value;
      } else {
        var texts, k: nat :| k < |rest| && EditsRun(next, rest, texts, k) && Refused(texts[k], rest[k], r.error);
        OneMoreEdit(code, edits, texts, k);
        assert ([code] + texts)[k + 1] == texts[k] && edits[k + 1] == rest[k];
      }
    }
  }

  lemma {:induction false} OneMoreEdit(code: string, edits: seq<Edit>, texts: seq<string>, k: nat)
    requires edits != [] && Taken(code, edits[0])
    requires EditsRun(ReplaceTolerant(code, edits[0].search, edits[0].replacement), edits[1..], texts, k)
    ensures EditsRun(code, edits, [code] + texts, k + 1)
  {
    hide TolerantMatches, ReplaceTolerant, IsBlank, Taken;
    var all, rest := [code] + texts, edits[1..];
    forall j | 0 <= j < k + 1
      ensures Taken(all[j], edits[j]) && all[j + 1] == ReplaceTolerant(all[j], edits[j].search, edits[j].replacement)
    {
      if j > 0 { assert all[j] == texts[j - 1] && edits[j] == rest[j - 1] && all[j + 1] == texts[j - 1 + 1]; }
    }
  }

  /** What a SEARCH/REPLACE response does to a text.  Without blocks, with visible text left
      over, and at the first edit that cannot be carried out it is refused, in this order;
      it is also refused when the edits leave the text as it was.  A refused response leaves
      the text alone; any other leaves the text of its edits. */
  lemma {:induction false} ResponseMeaning(code: string, response: string, strippers: Strippers)
    ensures var (result, error) := ApplyDiff.Outcome(code, response, strippers);
            var t, edits := StripFences(ReplaceAll(response, "\r\n", "\n")), ParseDiffBlocks(response);
            && (error.Some? ==> result == code)
            && (error == Some(NoDiffBlocks) <==> edits == [])
            && (error == Some(UnconsumedText) <==>
                  edits != [] && DiffMatches(t) != [] && !IsBlank(Remainder(t, strippers)))
            && (error.None? || error == Some(NoValidChanges) ==> RunsTo(code, edits, result))
            && (error.None? ==> result != code)
            && (error == Some(SearchNotFound) || error == Some(AmbiguousSearchMatch) ==>
                  StopsWith(code, edits, error.value))
  {
    hide ParseDiffBlocks, ApplyEdits, DiffMatches, Remainder, StripFences, ReplaceAll, IsBlank, RunsTo, StopsWith;
    EditsMeaning(code, ParseDiffBlocks(response));
    ApplyDiffErrors(code, ParseDiffBlocks(response));
  }

  lemma {:induction false} ApplyDiffErrors(code: string, edits: seq<Edit>)
    ensures ApplyEdits(code, edits).Err? ==>
              ApplyEdits(code, edits).error == SearchNotFound || ApplyEdits(code, edits).error == AmbiguousSearchMatch
    decreases |edits|
  {
    hide TolerantMatches, ReplaceTolerant, IsBlank;
    if edits != [] {
      ApplyDiffErrors(ReplaceTolerant(code, edits[0].search, edits[0].replacement), edits[1..]);
    }
  }

  // ----- edits of the blocks of a candidate

  /** The edit is made in the only block in which its search text matches, once. */
  ghost predicate MadeInBlock(code: string, e: Edit, next: string) {
    && !IsBlank(e.search)
    && exists i :: OnlyMatch(BlockContents(Parse(code).blocks), e.search, i) && IsEdited(code, e, i, next)
  }

  /** No single block is meant by the edit, for this reason. */
  ghost predicate NotInBlock(code: string, e: Edit, error: DiffError) {
    var contents := BlockContents(Parse(code).blocks);
    if IsBlank(e.search) || NoMatch(contents, e.search) then error == SearchNotFound
    else (forall i :: !OnlyMatch(contents, e.search, i)) && error == AmbiguousSearchMatch
  }

  lemma {:induction false} StepIsMade(code: string, e: Edit)
    ensures EditStep(code, e).Ok? ==> MadeInBlock(code, e, EditStep(code, e).value)
    ensures EditStep(code, e).Err? ==>
              exists error :: EditStep(code, e) == Err(Edits(error)) && NotInBlock(code, e, error)
  {
    hide Parse, EditStep, OnlyMatch, NoMatch, IsEdited, IsBlank, BlockContents;
    EditStepMeaning(code, e);
    if EditStep(code, e).Ok? {
      var i :| OnlyMatch(BlockContents(Parse(code).blocks), e.search, i);
      assert IsEdited(code, e, i, EditStep(code, e).value);
    } else {
      var error := EditStep(code, e).error.edit;
      assert NotInBlock(code, e, error);
    }
  }

  /** The texts that the first k edits leave; the blocks are looked up in each of them again. */
  ghost predicate BlockEditsRun(code: string, edits: seq<Edit>, texts: seq<string>, k: nat) {
    && k <= |edits| && |texts| == k + 1 && texts[0] == code
    && forall j :: 0 <= j < k ==> MadeInBlock(texts[j], edits[j], texts[j + 1])
  }

  ghost predicate BlockEditsRunTo(code: string, edits: seq<Edit>, result: string) {
    exists texts :: BlockEditsRun(code, edits, texts, |edits|) && result == texts[|edits|]
  }

  ghost predicate BlockEditsStopWith(code: string, edits: seq<Edit>, error: DiffError) {
    exists texts, k: nat ::
      k < |edits| && BlockEditsRun(code, edits, texts, k) && NotInBlock(texts[k], edits[k], error)
  }

  lemma {:induction false} BlockEditsMeaning(code: string, edits: seq<Edit>)
    ensures var r := EditBlocks(code, edits);
            && (r.Ok? ==> BlockEditsRunTo(code, edits, r.value))
            && (r.Err? ==> r.error.Edits? && BlockEditsStopWith(code, edits, r.error.edit))
    decreases |edits|
  {
    hide EditStep, MadeInBlock, NotInBlock;
    if edits == [] {
      assert BlockEditsRun(code, edits, [code], 0);
    } else {
      var e, rest := edits[0], edits[1..];
      StepIsMade(code, e);
      if EditStep(code, e).Err? {
        assert BlockEditsRun(code, edits, [code], 0);
      } else {
        var next := EditStep(code, e).value;
        BlockEditsMeaning(next, rest);
        var r := EditBlocks(next, rest);
        if r.Ok? {
          var texts :| BlockEditsRun(next, rest, texts, |rest|) && r.value == texts[|rest|];
          OneMoreBlockEdit(code, next, edits, texts, |rest|);
          assert ([code] + texts)[|edits|] == r.value;
        } else {
          var texts, k: nat :|
            k < |rest| && BlockEditsRun(next, rest, texts, k) && NotInBlock(texts[k], rest[k], r.error.edit);
          OneMoreBlockEdit(code, next, edits, texts, k);
          assert ([code] + texts)[k + 1] == texts[k] && edits[k + 1] == rest[k];
        }
      }
    }
  }

  lemma {:induction false} OneMoreBlockEdit(code: string, next: string, edits: seq<Edit>, texts: seq<string>, k: nat)
    requires edits != [] && MadeInBlock(code, edits[0], next) && BlockEditsRun(next, edits[1..], texts, k)
    ensures BlockEditsRun(code, edits, [code] + texts, k + 1)
  {
    hide MadeInBlock;
    var all, rest := [code] + texts, edits[1..];
    forall j | 0 <= j < k + 1 ensures MadeInBlock(all[j], edits[j], all[j + 1]) {
      if j > 0 { assert all[j] == texts[j - 1] && edits[j] == rest[j - 1] && all[j + 1] == texts[j - 1 + 1]; }
    }
  }

  /** What diff mode returns for a candidate with blocks: the text that its edits leave, each
      made in the one block it is for; or the first edit that is for no single block; or
      that there are no edits, or that they change nothing. */
  lemma {:induction false} DiffModeMeaning(code: string, edits: seq<Edit>)
    ensures var r := DiffReplacement(code, edits);
            && (r == Err(Edits(NoDiffBlocks)) <==> edits == [])
            && (r.Ok? ==> BlockEditsRunTo(code, edits, r.value) && r.value != code)
            && (r == Err(Edits(NoValidChanges)) ==> BlockEditsRunTo(code, edits, code))
            && (r.Err? ==>
                  && r.error.Edits?
                  && (r.error.edit == NoDiffBlocks || r.error.edit == NoValidChanges
                      || BlockEditsStopWith(code, edits, r.error.edit)))
  {
    hide BlockEditsRunTo, BlockEditsStopWith, EditBlocks;
    BlockEditsMeaning(code, edits);
    BlockEditErrors(code, edits);
  }

  lemma {:induction false} BlockEditErrors(code: string, edits: seq<Edit>)
    ensures EditBlocks(code, edits).Err? ==>
              EditBlocks(code, edits).error == Edits(SearchNotFound)
              || EditBlocks(code, edits).error == Edits(AmbiguousSearchMatch)
    decreases |edits|
  {
    hide EditStep, MadeInBlock, NotInBlock;
    if edits != [] {
      StepErrors(code, edits[0]);
      if EditStep(code, edits[0]).Ok? { BlockEditErrors(EditStep(code, edits[0]).value, edits[1..]); }
    }
  }

  lemma {:induction false} StepErrors(code: string, e: Edit)
    ensures EditStep(code, e).Err? ==>
              EditStep(code, e) == Err(Edits(SearchNotFound)) || EditStep(code, e) == Err(Edits(AmbiguousSearchMatch))
  {
    hide EditStep, BlockContents, OnlyMatch, NoMatch;
    EditStepMeaning(code, e);
  }

  // ----- full mode

  function HeaderName(section: (string, string)): string {
    Strip(section.0)
  }

  /** The header of section i is in order: a valid name that no section before it has. */
  predicate GoodHeader(sections: seq<(string, string)>, i: nat)
    requires i < |sections|
  {
    && HeaderName(sections[i]) != "" && ValidName(HeaderName(sections[i]))
    && forall k :: 0 <= k < i ==> HeaderName(sections[k]) != HeaderName(sections[i])
  }

  /** What is wrong with the header of section i. */
  predicate IsHeaderError(sections: seq<(string, string)>, i: nat, error: SectionError)
    requires i < |sections|
  {
    var name := HeaderName(sections[i]);
    match error
    case EmptyName => name == ""
    case InvalidSectionName => name != "" && !ValidName(name)
    case DuplicateSectionName =>
      name != "" && ValidName(name) && exists k :: 0 <= k < i && HeaderName(sections[k]) == name
    case UnknownName => false
  }

  predicate AllGood(sections: seq<(string, string)>, n: nat)
    requires n <= |sections|
  {
    forall i :: 0 <= i < n ==> GoodHeader(sections, i)
  }

  /** The bodies under their names. */
  predicate AreBodies(sections: seq<(string, string)>, n: nat, bodies: map<string, string>)
    requires n <= |sections|
  {
    && (forall i :: 0 <= i < n ==>
                      HeaderName(sections[i]) in bodies && bodies[HeaderName(sections[i])] == sections[i].1)
    && (forall name <- bodies :: exists i :: 0 <= i < n && HeaderName(sections[i]) == name)
  }

  /** The headers are read in order; the first that is not in order is reported. */
  lemma {:induction false} CollectMeaning(sections: seq<(string, string)>, n: nat, acc: map<string, string>)
    requires n <= |sections| && AllGood(sections, n) && AreBodies(sections, n, acc)
    ensures var r := Collect(sections[n..], acc);
            && (r.Ok? ==> AllGood(sections, |sections|) && AreBodies(sections, |sections|, r.value))
            && (r.Err? ==> r.error.Section? && exists i ::
                  0 <= i < |sections| && AllGood(sections, i) && IsHeaderError(sections, i, r.error.section))
    decreases |sections| - n
  {
    hide HeaderName, ValidName;
    if n < |sections| {
      var name := HeaderName(sections[n]);
      assert sections[n..][0] == sections[n] && sections[n..][1..] == sections[n + 1..];
      HeaderIsStripped(sections[n]);
      if name == "" || !ValidName(name) || name in acc {
        var e := if name == "" then EmptyName
                 else if !ValidName(name) then InvalidSectionName
                 else DuplicateSectionName;
        assert IsHeaderError(sections, n, e);
      } else {
        assert GoodHeader(sections, n);
        CollectMeaning(sections, n + 1, acc[name := sections[n].1]);
      }
    } else {
      assert sections[n..] == [];
    }
  }

  lemma HeaderIsStripped(section: (string, string))
    ensures HeaderName(section) == Strip(section.0)
  {
  }

  predicate SomeUnknown(sections: seq<(string, string)>, blocks: seq<Block>) {
    exists i :: 0 <= i < |sections| && HeaderName(sections[i]) !in Names(blocks)
  }

  /** The file with the body of each section in the block of its name and nothing else changed. */
  predicate IsSubstituted(code: string, sections: seq<(string, string)>, contents: seq<string>, result: string) {
    var p := Parse(code);
    && |contents| == |p.blocks| && result == Unparse(WithContents(p.blocks, contents), p.tail)
    && (forall i, k :: 0 <= i < |contents| && 0 <= k < |sections| && HeaderName(sections[k]) == p.blocks[i].name ==>
                         contents[i] == sections[k].1)
    && (forall i :: 0 <= i < |contents| && p.blocks[i].name !in SectionNames(sections) ==>
                      contents[i] == p.blocks[i].content)
  }

  function SectionNames(sections: seq<(string, string)>): set<string> {
    set s <- sections :: HeaderName(s)
  }

  ghost predicate Substitutes(code: string, sections: seq<(string, string)>, result: string) {
    exists contents :: IsSubstituted(code, sections, contents, result)
  }

  lemma {:induction false} BodiesAreSubstituted(
      code: string, sections: seq<(string, string)>, bodies: map<string, string>)
    requires AreBodies(sections, |sections|, bodies)
    ensures IsSubstituted(code, sections, NewContents(Parse(code).blocks, bodies), Substituted(Parse(code), bodies))
    ensures bodies == map[] <==> sections == []
    ensures (exists name <- bodies :: name !in Names(Parse(code).blocks)) <==> SomeUnknown(sections, Parse(code).blocks)
  {
    hide Parse, HeaderName, Unparse, Names;
    var blocks := Parse(code).blocks;
    forall i | 0 <= i < |blocks| && blocks[i].name in bodies ensures blocks[i].name in SectionNames(sections) {
      var k :| 0 <= k < |sections| && HeaderName(sections[k]) == blocks[i].name;
      assert sections[k] in sections;
    }
    if sections != [] { assert HeaderName(sections[0]) in bodies; }
  }

  /** What a full-mode response with BLOCK sections returns: the first header that is not in
      order is reported; then that there are no sections, or that a name is unknown; then
      that nothing changes; and otherwise each body is in the block of its name. */
  lemma {:induction false} NamedModeMeaning(code: string, sections: seq<(string, string)>)
    ensures var r := NamedReplacement(code, sections);
            && (r.Ok? ==> Substitutes(code, sections, r.value) && r.value != code)
            && (r == Err(Edits(NoValidChanges)) ==> Substitutes(code, sections, code))
            && (r.Ok? || r == Err(Edits(NoValidChanges)) ==>
                  AllGood(sections, |sections|) && sections != [] && !SomeUnknown(sections, Parse(code).blocks))
            && (r == Err(MissingBlockSections) <==> sections == [])
            && (r == Err(Section(UnknownName)) <==>
                  AllGood(sections, |sections|) && SomeUnknown(sections, Parse(code).blocks))
            && (r.Err? && r.error.Section? && r.error.section != UnknownName ==> exists i ::
                  0 <= i < |sections| && AllGood(sections, i) && IsHeaderError(sections, i, r.error.section))
  {
    hide Parse, HeaderName, Unparse, Names, Collect, Substituted, SomeUnknown, GoodHeader, IsSubstituted, IsHeaderError;
    assert sections[0..] == sections;
    CollectMeaning(sections, 0, map[]);
    var collected := Collect(sections, map[]);
    if collected.Ok? {
      BodiesAreSubstituted(code, sections, collected.value);
    } else {
      HeaderErrors(sections);
      CollectOfNothing();
    }
  }

  lemma CollectOfNothing()
    ensures Collect([], map[]) == Ok(map[])
  {
  }

  lemma HeaderErrors(sections: seq<(string, string)>)
    ensures forall i :: 0 <= i < |sections| ==> !IsHeaderError(sections, i, UnknownName)
    ensures forall i, e :: 0 <= i < |sections| && IsHeaderError(sections, i, e) ==> !GoodHeader(sections, i)
  {
  }

  /** Full mode by the number of blocks: without one the response is the new text; with BLOCK
      sections they are substituted by name; for a single block the response is its content;
      and for several blocks sections are missing.  A response that changes nothing is refused. */
  lemma {:induction false} FullModeMeaning(code: string, payload: Payload)
    ensures var r, blocks := FullReplacement(code, payload), Parse(code).blocks;
            && (r.Ok? ==>
                  || (blocks == [] && r.value == payload.text && r.value != code)
                  || (blocks != [] && payload.sections.Some? && r == NamedReplacement(code, payload.sections.value))
                  || (|blocks| == 1 && payload.sections.None? && payload.text != blocks[0].content
                      && r.value == Unparse([blocks[0].(content := payload.text)], Parse(code).tail)))
            && (r.Err? && payload.sections.None? ==>
                  if |blocks| > 1 then r.error == MissingBlockSections
                  else r.error == Edits(NoValidChanges)
                       && payload.text == if blocks == [] then code else blocks[0].content)
            && (blocks != [] && payload.sections.Some? ==> r == NamedReplacement(code, payload.sections.value))
  {
    hide Parse, Unparse, NamedReplacement;
  }
}
