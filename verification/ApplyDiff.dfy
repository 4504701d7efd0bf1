/** `apply_diff` (libreevolve/core/diff.py, lines 56-85): a mutation response is parsed,
    checked for left-over text and applied, and the code only changes when all of it worked. */
module ApplyDiff {
  import opened Text
  import opened LineEndings
  import opened DiffBlocks
  import opened DiffRoundTrip

  /** `validate_diff_payload_shape`. */
  function ShapeError(response: string, strippers: Strippers): Option<DiffError> {
    var t := StripFences(ReplaceAll(response, "\r\n", "\n"));
    if ParseDiffBlocks(response) == [] then Some(NoDiffBlocks)
    else if DiffMatches(t) == [] || IsBlank(Remainder(t, strippers)) then None
    else Some(UnconsumedText)
  }

  /** The text after the call and its error. */
  function Outcome(code: string, response: string, strippers: Strippers): (string, Option<DiffError>) {
    var shape := ShapeError(response, strippers);
    if shape.Some? then (code, shape)
    else
      match ApplyEdits(code, ParseDiffBlocks(response))
      case Err(e) => (code, Some(e))
      case Ok(edited) => if edited == code then (code, Some(NoValidChanges)) else (edited, None)
  }

  method Apply(code: string, response: string, strippers: Strippers) returns (result: string, error: Option<DiffError>)
    ensures (result, error) == Outcome(code, response, strippers)
    ensures error.None? <==> result != code
  {
    hide ParseDiffBlocks, TolerantMatches, ReplaceTolerant, IsBlank, DiffMatches, Remainder, StripFences, ReplaceAll;
    var blocks := ParseDiffBlocks(response);
    if blocks == [] {
      return code, Some(NoDiffBlocks);
    }
    error := ValidateConsumedDiffText(response, strippers);
    if error.Some? {
      return code, error;
    }
    result := code;
    for i := 0 to |blocks|
      invariant ApplyEdits(result, blocks[i..]) == ApplyEdits(code, blocks)
    {
      var e := blocks[i];
      assert blocks[i..][1..] == blocks[i + 1..];
      if IsBlank(e.search) {
        return code, Some(SearchNotFound);
      }
      var matches := TolerantMatches(result, e.search);
      if matches == 0 {
        return code, Some(SearchNotFound);
      }
      if matches > 1 {
        return code, Some(AmbiguousSearchMatch);
      }
      result := ReplaceLineEndingTolerant(result, e.search, e.replacement);
    }
    if result == code {
      return code, Some(NoValidChanges);
    }
    error := None;
  }

  /** A response that prints clean blocks is applied as exactly those edits, in order. */
  lemma {:induction false} PrintedBlocksAreApplied(code: string, bs: seq<Block>, strippers: Strippers)
    requires AllClean(bs) && bs != [] && KeepsBlank(strippers)
    ensures var edited := ApplyEdits(code, Edits(bs));
            Outcome(code, Print(bs), strippers)
            == if edited.Err? then (code, Some(edited.error))
               else if edited.value == code then (code, Some(NoValidChanges))
               else (edited.value, None)
  {
    hide ParseDiffBlocks, ApplyEdits, DiffMatches, Remainder, StripFences, ReplaceAll, AllClean, KeepsBlank, IsBlank;
    ParseInvertsPrint(bs);
    PrintPassesShapeCheck(bs, strippers);
  }

  /** End to end, whatever line endings the code and the block texts use: when the edits have
      clean seams, the edited code reads like the plain edits of the LF text, and an error is
      the error of the plain edits, or says that the edits left the code as it was.  For code
      without bare CRs the seams are always clean. */
  lemma {:induction false} PrintedBlocksEditTheLines(code: string, bs: seq<Block>, strippers: Strippers)
    requires AllClean(bs) && bs != [] && KeepsBlank(strippers)
    ensures var (result, error) := Outcome(code, Print(bs), strippers);
            var plain := ApplyPlainEdits(Norm(code), NormEdits(Edits(bs)));
            && (NoBareCr(code) ==> NoBareCr(result) && CleanThroughout(code, Edits(bs)))
            && (CleanThroughout(code, Edits(bs)) ==>
                  plain == if error.None? || error == Some(NoValidChanges) then Ok(Norm(result)) else Err(error.value))
  {
    hide ApplyEdits, ApplyPlainEdits, Outcome, AllClean, KeepsBlank, NoBareCr, Norm, CleanThroughout;
    PrintedBlocksAreApplied(code, bs, strippers);
    TolerantRefinesPlain(code, Edits(bs));
    EditErrors(code, Edits(bs));
  }

  /** The edit loop itself never reports that nothing changed. */
  lemma {:induction false} EditErrors(code: string, edits: seq<Edit>)
    ensures ApplyEdits(code, edits) != Err(NoValidChanges)
    decreases |edits|
  {
    hide TolerantMatches, ReplaceTolerant, IsBlank;
    if edits != [] {
      EditErrors(ReplaceTolerant(code, edits[0].search, edits[0].replacement), edits[1..]);
    }
  }
}
