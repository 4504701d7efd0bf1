/** Matching and replacing that ignores the difference between CR, LF and CRLF
    (libreevolve/core/diff.py), and `apply_diff` on top of it. */
module LineEndings {
  import opened Text

  /** `_normalize_line_endings`: two successive replacements. */
  function Normalize(text: string): string {
    ReplaceAll(ReplaceAll(text, "\r\n", "\n"), "\r", "\n")
  }

  predicate StartsCrLf(s: string) {
    |s| >= 2 && s[0] == CR && s[1] == LF
  }

  /** Length of the first unit of a non-empty text: a CRLF pair counts as one unit. */
  function UnitLength(s: string): (n: nat)
    requires s != ""
    ensures 1 <= n <= |s|
  {
    if StartsCrLf(s) then 2 else 1
  }

  function UnitChar(s: string): char
    requires s != ""
  {
    if s[0] == CR then LF else s[0]
  }

  /** One character per unit, every line ending written as LF. */
  function Norm(s: string): string {
    if s == "" then "" else [UnitChar(s)] + Norm(s[UnitLength(s)..])
  }

  /** Position in `s` at which unit number `i` starts. */
  function Offset(s: string, i: nat): (o: nat)
    requires i <= |Norm(s)|
    ensures o <= |s|
  {
    if i == 0 then 0 else UnitLength(s) + Offset(s[UnitLength(s)..], i - 1)
  }

  /** Putting `b` after `a` would join a CR and an LF into one line ending. */
  predicate Joins(a: string, b: string) {
    a != "" && b != "" && a[|a| - 1] == CR && b[0] == LF
  }

  predicate HasCr(s: string) {
    CR in s
  }

  // ----- the two normalisers agree

  lemma {:induction false} ReplaceCr(s: string)
    ensures !HasCr(ReplaceAll(s, "\r", "\n"))
    ensures !HasCr(s) ==> ReplaceAll(s, "\r", "\n") == s
  {
    if s != "" {
      ReplaceCr(s[1..]);
      assert "\r" <= s <==> s[0] == CR;
      assert s == [s[0]] + s[1..];
    }
  }

  /** Both normalisers of the module compute the same text. */
  lemma {:induction false} NormalizersAgree(s: string)
    ensures Normalize(s) == Norm(s)
  {
    if s != "" {
      var n := UnitLength(s);
      NormalizersAgree(s[n..]);
      assert |s| >= 2 ==> ("\r\n" <= s <==> StartsCrLf(s));
      var rest := ReplaceAll(s[n..], "\r\n", "\n");
      var first := if StartsCrLf(s) then "\n" else [s[0]];
      assert ReplaceAll(s, "\r\n", "\n") == first + rest by {
        if |s| == 1 { assert s[1..] == "" && s == [s[0]]; }
      }
      assert (first + rest)[1..] == rest;
      assert "\r" <= first + rest <==> first[0] == CR;
    }
  }

  // ----- normalisation and concatenation

  lemma {:induction false} NormHasNoCr(s: string)
    ensures !HasCr(Norm(s))
  {
    if s != "" { NormHasNoCr(s[UnitLength(s)..]); }
  }

  lemma {:induction false} NormOfCrFree(s: string)
    requires !HasCr(s)
    ensures Norm(s) == s
  {
    if s != "" { NormOfCrFree(s[1..]); }
  }

  /** Normalisation distributes over concatenation exactly when no line ending is
      created at the seam; otherwise one character is lost. */
  lemma {:induction false} NormConcat(a: string, b: string)
    ensures Norm(a + b) == Norm(a) + Norm(b) <==> !Joins(a, b)
    ensures |Norm(a + b)| == |Norm(a)| + |Norm(b)| - if Joins(a, b) then 1 else 0
  {
    if a == "" {
      assert a + b == b;
    } else if |a| == 1 && Joins(a, b) {
      assert a[1..] == "" && (a + b)[2..] == b[1..];
    } else {
      var n := UnitLength(a);
      NormConcat(a[n..], b);
      UnitOfConcat(a, b);
      hide UnitLength, UnitChar, Joins;
      NormFirst(a);
      NormFirst(a + b);
      ConsConcat(UnitChar(a), Norm(a[n..]), Norm(b), Norm(a[n..] + b));
    }
  }

  lemma NormFirst(s: string)
    requires s != ""
    ensures Norm(s) == [UnitChar(s)] + Norm(s[UnitLength(s)..])
  {
  }

  /** Unless a whole one-character text joins what follows, its first unit stays. */
  lemma {:induction false} UnitOfConcat(a: string, b: string)
    requires a != "" && !(|a| == 1 && Joins(a, b))
    ensures UnitLength(a + b) == UnitLength(a) && UnitChar(a + b) == UnitChar(a)
    ensures (a + b)[UnitLength(a)..] == a[UnitLength(a)..] + b
    ensures Joins(a, b) == Joins(a[UnitLength(a)..], b)
  {
    hide Norm;
  }

  lemma {:induction false} ConsConcat(c: char, x: string, y: string, z: string)
    ensures [c] + z == ([c] + x) + y <==> z == x + y
  {
    assert ([c] + x) + y == [c] + (x + y);
    assert ([c] + z)[1..] == z && ([c] + (x + y))[1..] == x + y;
  }

  // ----- offset tables

  lemma {:induction false} OffsetSuffix(s: string, i: nat)
    requires i <= |Norm(s)|
    ensures Norm(s[Offset(s, i)..]) == Norm(s)[i..]
    ensures Offset(s, i) == |s| <==> i == |Norm(s)|
  {
    hide *;
    if i == 0 {
      OffsetOfNothing(s);
      NormOfNothing(s);
      assert s[0..] == s && Norm(s)[0..] == Norm(s);
    } else {
      OffsetFirst(s, i);
      var t := s[UnitLength(s)..];
      OffsetSuffix(t, i - 1);
      DropTwice(s, UnitLength(s), Offset(t, i - 1));
      DropTwice(Norm(s), 1, i - 1);
    }
  }

  lemma DropTwice(s: string, i: nat, j: nat)
    requires i <= |s| && j <= |s[i..]|
    ensures s[i..][j..] == s[i + j..]
  {
  }

  lemma OffsetFirst(s: string, i: nat)
    requires 0 < i <= |Norm(s)|
    ensures s != "" && Norm(s)[0] == UnitChar(s) && Norm(s)[1..] == Norm(s[UnitLength(s)..])
    ensures Offset(s, i) == UnitLength(s) + Offset(s[UnitLength(s)..], i - 1)
  {
  }

  lemma NormOfNothing(s: string)
    ensures Norm(s) == "" <==> s == ""
  {
  }

  lemma OffsetOfNothing(s: string)
    ensures Offset(s, 0) == 0
  {
  }

  lemma {:induction false} OffsetCutsNoPair(s: string, i: nat)
    requires i <= |Norm(s)|
    ensures var o := Offset(s, i); 0 < o < |s| ==> !(s[o - 1] == CR && s[o] == LF)
  {
    if i > 0 {
      var n := UnitLength(s);
      OffsetCutsNoPair(s[n..], i - 1);
    }
  }

  /** The offset table splits the text at unit boundaries: both halves normalise to
      the matching halves of the normalised text and no CRLF is cut. */
  lemma {:induction false} OffsetSplits(s: string, i: nat)
    requires i <= |Norm(s)|
    ensures Norm(s[..Offset(s, i)]) == Norm(s)[..i]
    ensures Norm(s[Offset(s, i)..]) == Norm(s)[i..]
    ensures !Joins(s[..Offset(s, i)], s[Offset(s, i)..])
    ensures Offset(s, i) == |s| <==> i == |Norm(s)|
  {
    hide Norm, Offset;
    OffsetSuffix(s, i);
    OffsetCutsNoPair(s, i);
    var a, b := s[..Offset(s, i)], s[Offset(s, i)..];
    NormConcat(a, b);
    assert a + b == s;
    assert Norm(s) == Norm(a) + Norm(s)[i..];
    assert Norm(a) == Norm(s)[..|Norm(a)|];
  }

  lemma {:induction false} OffsetStep(s: string, i: nat)
    requires i < |Norm(s)|
    ensures Offset(s, i) < |s|
    ensures Offset(s, i + 1) == Offset(s, i) + UnitLength(s[Offset(s, i)..])
    ensures Norm(s)[i] == UnitChar(s[Offset(s, i)..])
  {
    hide UnitLength, UnitChar;
    if i == 0 {
      assert s[0..] == s;
    } else {
      OffsetFirst(s, i);
      OffsetFirst(s, i + 1);
      hide Norm, Offset;
      var n := UnitLength(s);
      var t := s[n..];
      OffsetStep(t, i - 1);
      assert s[n + Offset(t, i - 1)..] == t[Offset(t, i - 1)..];
    }
  }

  lemma {:induction false} OffsetMonotone(s: string, i: nat, j: nat)
    requires i <= j <= |Norm(s)|
    ensures Offset(s, i) <= Offset(s, j)
  {
    if i > 0 { OffsetMonotone(s[UnitLength(s)..], i - 1, j - 1); }
  }

  lemma NothingJoins(a: string, rest: string, b: string)
    requires !Joins(a, rest) && b <= rest
    ensures !Joins(a, b)
  {
  }

  /** A range of the normalised text is the normal form of the range of the original
      text that the offset table names. */
  lemma {:induction false} SpanNormalizes(s: string, i: nat, j: nat)
    requires i <= j <= |Norm(s)|
    ensures Offset(s, i) <= Offset(s, j) <= |s|
    ensures Norm(s[Offset(s, i)..Offset(s, j)]) == Norm(s)[i..j]
  {
    hide Norm, Offset, Joins;
    OffsetMonotone(s, i, j);
    var oi, oj := Offset(s, i), Offset(s, j);
    OffsetSplits(s, i);
    OffsetSplits(s, j);
    var a, b := s[..oi], s[oi..oj];
    assert s[..oj] == a + b;
    assert !Joins(a, b) by { NothingJoins(a, s[oi..], b); }
    NormConcat(a, b);
    assert Norm(s)[..j] == Norm(s)[..i] + Norm(b);
    assert Norm(s)[..j][i..] == Norm(s)[i..j];
  }

  /** `_normalize_line_endings_with_offsets`. */
  method NormalizeWithOffsets(text: string) returns (chars: string, starts: seq<nat>, ends: seq<nat>)
    ensures chars == Norm(text)
    ensures |starts| == |ends| == |chars|
    ensures forall i :: 0 <= i < |chars| ==> starts[i] == Offset(text, i) && ends[i] == Offset(text, i + 1)
  {
    hide Norm, Offset, UnitLength, UnitChar, Joins;
    chars, starts, ends := "", [], [];
    var index := 0;
    OffsetOfNothing(text);
    while index < |text|
      invariant |starts| == |ends| == |chars| <= |Norm(text)|
      invariant chars == Norm(text)[..|chars|]
      invariant index == Offset(text, |chars|)
      invariant forall i :: 0 <= i < |chars| ==> starts[i] == Offset(text, i) && ends[i] == Offset(text, i + 1)
      decreases |text| - index
    {
      OffsetSplits(text, |chars|);
      OffsetStep(text, |chars|);
      UnitAt(text, index);
      if index + 1 < |text| && text[index] == CR && text[index + 1] == LF {
        chars := chars + [LF];
        starts := starts + [index];
        ends := ends + [index + 2];
        index := index + 2;
      } else {
        chars := chars + [if text[index] == CR then LF else text[index]];
        starts := starts + [index];
        ends := ends + [index + 1];
        index := index + 1;
      }
    }
    OffsetSplits(text, |chars|);
  }

  /** The unit at a position, as the loop looks at it. */
  lemma {:induction false} UnitAt(s: string, i: nat)
    requires i < |s|
    ensures var pair := i + 1 < |s| && s[i] == CR && s[i + 1] == LF;
            && UnitLength(s[i..]) == (if pair then 2 else 1)
            && UnitChar(s[i..]) == (if pair || s[i] == CR then LF else s[i])
  {
    assert StartsCrLf(s[i..]) <==> i + 1 < |s| && s[i] == CR && s[i + 1] == LF;
  }

  // ----- replacing

  /** `_dominant_line_ending`. */
  function DominantLineEnding(text: string): (ending: string)
    ensures ending == "\n" || ending == "\r" || ending == "\r\n"
  {
    var crlf := Count(text, "\r\n");
    var without := ReplaceAll(text, "\r\n", "");
    var lf := Count(without, "\n");
    var cr := Count(without, "\r");
    if crlf >= lf && crlf >= cr && crlf > 0 then "\r\n"
    else if cr > lf && cr > 0 then "\r"
    else "\n"
  }

  /** `_adapt_line_endings`. */
  function AdaptLineEndings(text: string, ending: string): string
  {
    var normalized := Normalize(text);
    if ending == "\n" then normalized else ReplaceAll(normalized, "\n", ending)
  }

  /** `_line_ending_tolerant_matches`. */
  function TolerantMatches(code: string, search: string): nat {
    Count(Norm(code), Normalize(search))
  }

  /** The part of `code` that the replacement overwrites, as a half-open range. */
  function MatchSpan(code: string, search: string): (span: (nat, nat))
    requires Contains(Norm(code), Norm(search))
    ensures span.0 <= span.1 <= |code|
  {
    var start := Find(Norm(code), Norm(search), 0);
    OffsetMonotone(code, start, start + |Norm(search)|);
    (Offset(code, start), Offset(code, start + |Norm(search)|))
  }

  /** The text written over the matched span, in the span's own line endings. */
  function Middle(code: string, search: string, replacement: string): string
    requires Contains(Norm(code), Norm(search))
  {
    var span := MatchSpan(code, search);
    AdaptLineEndings(replacement, DominantLineEnding(code[span.0..span.1]))
  }

  /** `_replace_line_ending_tolerant` as a function. */
  function ReplaceTolerant(code: string, search: string, replacement: string): string {
    if !Contains(Norm(code), Norm(search)) then code
    else
      var span := MatchSpan(code, search);
      code[..span.0] + Middle(code, search, replacement) + code[span.1..]
  }

  /** `_replace_line_ending_tolerant`, through the offset tables. */
  method ReplaceLineEndingTolerant(code: string, search: string, replacement: string) returns (result: string)
    ensures result == ReplaceTolerant(code, search, replacement)
  {
    hide *;
    var normalizedCode, starts, ends := NormalizeWithOffsets(code);
    var normalizedSearch := Normalize(search);
    NormalizersAgree(search);
    var start := Find(normalizedCode, normalizedSearch, 0);
    ReplaceAtMatch(code, search, replacement);
    if start < 0 {
      return code;
    }
    var end := start + |normalizedSearch|;
    OffsetSplits(code, start);
    var originalStart := if start < |starts| then starts[start] else |code|;
    var originalEnd := if end > 0 then ends[end - 1] else originalStart;
    var adapted := AdaptLineEndings(replacement, DominantLineEnding(code[originalStart..originalEnd]));
    result := code[..originalStart] + adapted + code[originalEnd..];
  }

  lemma {:induction false} ReplaceAtMatch(code: string, search: string, replacement: string)
    ensures var start := Find(Norm(code), Norm(search), 0);
            if start < 0 then ReplaceTolerant(code, search, replacement) == code
            else
              var from, to := Offset(code, start), Offset(code, start + |Norm(search)|);
              && from <= to
              && ReplaceTolerant(code, search, replacement)
                 == code[..from] + AdaptLineEndings(replacement, DominantLineEnding(code[from..to])) + code[to..]
  {
    hide Norm, Offset, AdaptLineEndings, DominantLineEnding;
    var start := Find(Norm(code), Norm(search), 0);
    if start >= 0 {
      OffsetMonotone(code, start, start + |Norm(search)|);
    }
  }

  /** The overwritten span is what the search text means, neither end of it cuts a
      CRLF in two, and the text around it normalises to the text around the match. */
  lemma {:induction false} MatchSpanFacts(code: string, search: string)
    requires Contains(Norm(code), Norm(search))
    ensures var span := MatchSpan(code, search);
            && Norm(code[span.0..span.1]) == Norm(search)
            && !Joins(code[..span.0], code[span.0..])
            && !Joins(code[..span.1], code[span.1..])
    ensures var span, start := MatchSpan(code, search), Find(Norm(code), Norm(search), 0);
            && Norm(code[..span.0]) == Norm(code)[..start]
            && Norm(code[span.1..]) == Norm(code)[start + |Norm(search)|..]
  {
    hide Offset, Norm, Joins;
    var start := Find(Norm(code), Norm(search), 0);
    UnitSpanFacts(code, start, start + |Norm(search)|);
  }

  lemma {:induction false} UnitSpanFacts(s: string, i: nat, j: nat)
    requires i <= j <= |Norm(s)|
    ensures Offset(s, i) <= Offset(s, j) <= |s|
    ensures Norm(s[Offset(s, i)..Offset(s, j)]) == Norm(s)[i..j]
    ensures !Joins(s[..Offset(s, i)], s[Offset(s, i)..])
    ensures !Joins(s[..Offset(s, j)], s[Offset(s, j)..])
    ensures Norm(s[..Offset(s, i)]) == Norm(s)[..i]
    ensures Norm(s[Offset(s, j)..]) == Norm(s)[j..]
  {
    SpanNormalizes(s, i, j);
    OffsetSplits(s, i);
    OffsetSplits(s, j);
  }

  /** What is written over the span means the replacement text; the rest is kept. */
  lemma {:induction false} ReplaceKeepsTextOutsideSpan(code: string, search: string, replacement: string)
    requires Contains(Norm(code), Norm(search))
    ensures var span := MatchSpan(code, search);
            ReplaceTolerant(code, search, replacement)
            == code[..span.0] + Middle(code, search, replacement) + code[span.1..]
    ensures Norm(Middle(code, search, replacement)) == Norm(replacement)
  {
    var span := MatchSpan(code, search);
    AdaptKeepsMeaning(replacement, DominantLineEnding(code[span.0..span.1]));
  }

  /** One line ending in any form, or one other character, is one character normalised. */
  lemma {:induction false} NormOfUnit(c: char, unit: string)
    requires c != CR
    requires unit == [c] || (c == LF && (unit == "\r" || unit == "\r\n"))
    ensures Norm(unit) == [c]
  {
    assert unit[1..] == "" || unit == "\r\n";
    if unit == "\r\n" { assert unit[2..] == ""; }
  }

  lemma {:induction false} AdaptCrFree(s: string, ending: string)
    requires !HasCr(s)
    requires ending == "\r" || ending == "\r\n"
    ensures Norm(ReplaceAll(s, "\n", ending)) == s
    ensures ending == "\r" ==> LF !in ReplaceAll(s, "\n", ending)
    ensures s != "" && s[0] != LF ==> ReplaceAll(s, "\n", ending) != "" && ReplaceAll(s, "\n", ending)[0] == s[0]
  {
    hide Norm;
    NormOfNothing("");
    if s != "" {
      ReplaceLfFirst(s, ending);
      hide ReplaceAll;
      var rest := ReplaceAll(s[1..], "\n", ending);
      AdaptCrFree(s[1..], ending);
      var first := if s[0] == LF then ending else [s[0]];
      NormOfUnit(s[0], first);
      assert !Joins(first, rest);
      NormConcat(first, rest);
    }
  }

  lemma {:induction false} ReplaceLfFirst(s: string, ending: string)
    requires s != ""
    ensures ReplaceAll(s, "\n", ending)
            == (if s[0] == LF then ending else [s[0]]) + ReplaceAll(s[1..], "\n", ending)
  {
    assert "\n" <= s <==> s[0] == LF;
  }

  /** Adapting a text to another line ending does not change what it normalises to. */
  lemma {:induction false} AdaptKeepsMeaning(text: string, ending: string)
    requires ending == "\n" || ending == "\r" || ending == "\r\n"
    ensures Norm(AdaptLineEndings(text, ending)) == Norm(text)
  {
    NormalizersAgree(text);
    NormHasNoCr(text);
    if ending == "\n" { NormOfCrFree(Norm(text)); } else { AdaptCrFree(Norm(text), ending); }
  }

  /** The same replacement made on normalised text. */
  function ReplaceFirst(text: string, search: string, replacement: string): string {
    var start := Find(text, search, 0);
    if start < 0 then text else text[..start] + replacement + text[start + |search|..]
  }

  /** No seam of the replacement puts a CR directly before an LF. */
  predicate CleanSeams(code: string, search: string, replacement: string)
    requires Contains(Norm(code), Norm(search))
  {
    var span := MatchSpan(code, search);
    var middle := Middle(code, search, replacement);
    !Joins(code[..span.0], middle + code[span.1..]) && !Joins(middle, code[span.1..])
  }

  lemma {:induction false} NormThree(a: string, b: string, c: string)
    ensures Norm(a + b + c) == Norm(a) + Norm(b) + Norm(c) <==> !Joins(a, b + c) && !Joins(b, c)
  {
    assert a + b + c == a + (b + c);
    assert Norm(a) + Norm(b) + Norm(c) == Norm(a) + (Norm(b) + Norm(c));
    NormConcat(a, b + c);
    NormConcat(b, c);
  }

  /** Commuting square: replacing and then normalising is the same as normalising and
      then replacing the leftmost match, exactly when both seams are clean. */
  lemma {:induction false} ReplaceCommutesWithNorm(code: string, search: string, replacement: string)
    requires Contains(Norm(code), Norm(search))
    ensures Norm(ReplaceTolerant(code, search, replacement))
            == ReplaceFirst(Norm(code), Norm(search), Norm(replacement))
            <==> CleanSeams(code, search, replacement)
  {
    hide Norm, Middle, MatchSpan, Find, Occurs, AdaptLineEndings;
    var span := MatchSpan(code, search);
    ReplaceKeepsTextOutsideSpan(code, search, replacement);
    MatchSpanFacts(code, search);
    NormThree(code[..span.0], Middle(code, search, replacement), code[span.1..]);
  }

  /** The condition is needed: with a bare CR before the match and a replacement that
      starts with LF, the two become one line ending and a line of the file is lost. */
  lemma {:induction false} SeamCanLoseALine()
    ensures Contains(Norm("\rab"), Norm("a"))
    ensures Norm(ReplaceTolerant("\rab", "a", "\nc")) != ReplaceFirst(Norm("\rab"), Norm("a"), Norm("\nc"))
  {
    ExampleSpan();
    ExampleMiddle();
    ReplaceCommutesWithNorm("\rab", "a", "\nc");
  }

  lemma {:induction false} ExampleSpan()
    ensures Contains(Norm("\rab"), Norm("a"))
    ensures MatchSpan("\rab", "a") == (1, 2)
  {
    hide Norm, UnitLength, UnitChar;
    ExampleNorms();
    ExampleOffsets();
    hide Offset;
    assert "\nab"[0..1][0] == '\n';
    assert Occurs("\nab", "a", 1) && !Occurs("\nab", "a", 0);
  }

  lemma {:induction false} ExampleNorms()
    ensures Norm("b") == "b" && Norm("ab") == "ab" && Norm("\rab") == "\nab" && Norm("a") == "a"
  {
    assert "\rab"[1..] == "ab" && "ab"[1..] == "b" && "b"[1..] == "" && "a"[1..] == "";
    NormOfCrFree("b");
    NormOfCrFree("ab");
    NormOfCrFree("a");
  }

  lemma {:induction false} ExampleOffsets()
    requires Norm("b") == "b" && Norm("ab") == "ab" && Norm("\rab") == "\nab"
    ensures Offset("\rab", 1) == 1 && Offset("\rab", 2) == 2
  {
    hide Norm;
    assert "\rab"[1..] == "ab" && "ab"[1..] == "b";
    OffsetOfNothing("ab");
    OffsetOfNothing("b");
    assert Offset("ab", 1) == 1;
  }

  lemma {:induction false} ExampleMiddle()
    requires Contains(Norm("\rab"), Norm("a")) && MatchSpan("\rab", "a") == (1, 2)
    ensures Middle("\rab", "a", "\nc") == "\nc"
  {
    assert "\rab"[1..2] == "a";
    assert DominantLineEnding("a") == "\n" by {
      CountMeaning("a", "\r\n");
      assert ReplaceAll("a", "\r\n", "") == "a";
      CountMeaning("a", "\r");
    }
    NormalizersAgree("\nc");
    NormOfCrFree("\nc");
  }

  // ----- applying a list of SEARCH/REPLACE pairs

  datatype DiffError = NoDiffBlocks | UnconsumedText | SearchNotFound | AmbiguousSearchMatch | NoValidChanges

  datatype Edit = Edit(search: string, replacement: string)

  /** The loop of `apply_diff`: each search text must match exactly once. */
  function ApplyEdits(code: string, edits: seq<Edit>): Result<string, DiffError>
    decreases |edits|
  {
    if edits == [] then Ok(code)
    else
      var e := edits[0];
      var matches := TolerantMatches(code, e.search);
      if IsBlank(e.search) || matches == 0 then Err(SearchNotFound)
      else if matches > 1 then Err(AmbiguousSearchMatch)
      else ApplyEdits(ReplaceTolerant(code, e.search, e.replacement), edits[1..])
  }

  /** The same engine for texts whose only line ending is LF: plain counting and
      plain replacing. */
  function ApplyPlainEdits(code: string, edits: seq<Edit>): Result<string, DiffError>
    decreases |edits|
  {
    if edits == [] then Ok(code)
    else
      var e := edits[0];
      var matches := Count(code, e.search);
      if IsBlank(e.search) || matches == 0 then Err(SearchNotFound)
      else if matches > 1 then Err(AmbiguousSearchMatch)
      else ApplyPlainEdits(ReplaceFirst(code, e.search, e.replacement), edits[1..])
  }

  function NormEdits(edits: seq<Edit>): seq<Edit> {
    seq(|edits|, i requires 0 <= i < |edits| => Edit(Norm(edits[i].search), Norm(edits[i].replacement)))
  }

  /** Every CR is the first half of a CRLF. */
  predicate NoBareCr(s: string) {
    forall i :: 0 <= i < |s| && s[i] == CR ==> i + 1 < |s| && s[i + 1] == LF
  }

  lemma {:induction false} BlankIsNormBlank(s: string)
    ensures IsBlank(Norm(s)) <==> IsBlank(s)
  {
    if s != "" {
      var n := UnitLength(s);
      BlankIsNormBlank(s[n..]);
      assert s == s[..n] + s[n..];
      assert Norm(s) == [UnitChar(s)] + Norm(s[n..]);
      assert IsBlank(s) <==> IsBlank(s[..n]) && IsBlank(s[n..]);
      assert IsBlank(Norm(s)) <==> IsSpace(UnitChar(s)) && IsBlank(Norm(s[n..])) by {
        assert Norm(s)[0] == UnitChar(s) && Norm(s)[1..] == Norm(s[n..]);
      }
    }
  }

  lemma {:induction false} DropCrLf(s: string)
    requires NoBareCr(s)
    ensures !HasCr(ReplaceAll(s, "\r\n", ""))
  {
    if |s| >= 2 {
      assert "\r\n" <= s <==> s[0] == CR;
      var n := if s[0] == CR then 2 else 1;
      assert NoBareCr(s[n..]);
      DropCrLf(s[n..]);
    }
  }

  lemma {:induction false} ToCrLf(s: string)
    requires !HasCr(s)
    ensures NoBareCr(ReplaceAll(s, "\n", "\r\n"))
  {
    if s != "" {
      ToCrLf(s[1..]);
      assert "\n" <= s <==> s[0] == LF;
    }
  }

  /** A replacement inside a text without bare CRs leaves none behind, and its seams
      are always clean. */
  lemma {:induction false} NoBareCrIsKept(code: string, search: string, replacement: string)
    requires NoBareCr(code)
    ensures NoBareCr(ReplaceTolerant(code, search, replacement))
    ensures Contains(Norm(code), Norm(search)) ==> CleanSeams(code, search, replacement)
  {
    hide Norm, MatchSpan, Find, Occurs, Contains, Joins, Offset, NoBareCr, ReplaceTolerant, Middle;
    if !Contains(Norm(code), Norm(search)) {
      NoMatchKeepsCode(code, search, replacement);
    } else {
      ReplaceKeepsTextOutsideSpan(code, search, replacement);
      MatchSpanFacts(code, search);
      var span := MatchSpan(code, search);
      NoBareCrSplits(code, span.0);
      NoBareCrSplits(code, span.1);
      NoBareCrMiddle(code, search, replacement);
      var b, c := Middle(code, search, replacement), code[span.1..];
      NoBareCrJoins(b, c);
      NoBareCrJoins(code[..span.0], b + c);
      assert code[..span.0] + b + c == code[..span.0] + (b + c);
    }
  }

  lemma {:induction false} NoMatchKeepsCode(code: string, search: string, replacement: string)
    requires !Contains(Norm(code), Norm(search))
    ensures ReplaceTolerant(code, search, replacement) == code
  {
    hide Norm, Occurs;
  }

  lemma {:induction false} NoBareCrMiddle(code: string, search: string, replacement: string)
    requires NoBareCr(code) && Contains(Norm(code), Norm(search))
    ensures NoBareCr(Middle(code, search, replacement))
  {
    hide Norm, MatchSpan, DominantLineEnding, Find, Occurs, ReplaceAll, Joins, Offset;
    var span := MatchSpan(code, search);
    MatchSpanFacts(code, search);
    NoBareCrSplits(code, span.1);
    assert code[..span.1][span.0..] == code[span.0..span.1];
    assert NoBareCr(code[span.0..span.1]);
    NoBareCrEnding(code[span.0..span.1]);
    NormalizersAgree(replacement);
    NormHasNoCr(replacement);
    ToCrLf(Norm(replacement));
  }

  lemma NoBareCrJoins(a: string, b: string)
    requires NoBareCr(a) && NoBareCr(b)
    ensures NoBareCr(a + b) && !Joins(a, b)
  {
  }

  lemma {:induction false} NoBareCrSplits(s: string, o: nat)
    requires o <= |s| && NoBareCr(s) && !Joins(s[..o], s[o..])
    ensures NoBareCr(s[..o]) && NoBareCr(s[o..])
  {
    assert 0 < o < |s| ==> s[..o][o - 1] == s[o - 1] && s[o..][0] == s[o];
  }

  lemma {:induction false} NoBareCrEnding(s: string)
    requires NoBareCr(s)
    ensures DominantLineEnding(s) != "\r"
  {
    DropCrLf(s);
    CountMeaning(ReplaceAll(s, "\r\n", ""), "\r");
  }

  /** The edit is carried out: its search text matches exactly once. */
  predicate Taken(code: string, e: Edit) {
    !IsBlank(e.search) && TolerantMatches(code, e.search) == 1
  }

  lemma {:induction false} TakenIsContained(code: string, e: Edit)
    requires Taken(code, e)
    ensures Contains(Norm(code), Norm(e.search))
  {
    hide Norm;
    NormalizersAgree(e.search);
    CountMeaning(Norm(code), Norm(e.search));
  }

  /** Every edit that is carried out has clean seams in the text it is applied to. */
  predicate CleanThroughout(code: string, edits: seq<Edit>)
    decreases |edits|
  {
    edits != [] && Taken(code, edits[0]) ==>
      var e := edits[0];
      TakenIsContained(code, e);
      CleanSeams(code, e.search, e.replacement)
      && CleanThroughout(ReplaceTolerant(code, e.search, e.replacement), edits[1..])
  }

  /** After every edit the text of the plain engine is the LF text of the code. */
  predicate AgreesThroughout(code: string, plain: string, edits: seq<Edit>)
    decreases |edits|
  {
    && plain == Norm(code)
    && (edits != [] && Taken(code, edits[0]) ==>
          var e := edits[0];
          AgreesThroughout(ReplaceTolerant(code, e.search, e.replacement),
                           ReplaceFirst(plain, Norm(e.search), Norm(e.replacement)), edits[1..]))
  }

  /** The tolerant engine keeps step with the plain one, for any code and any edits, exactly
      when no edit puts a bare CR before an LF at one of its seams. */
  lemma {:induction false} AgreementMeansCleanSeams(code: string, edits: seq<Edit>)
    ensures AgreesThroughout(code, Norm(code), edits) <==> CleanThroughout(code, edits)
    decreases |edits|
  {
    hide Norm, Taken, CleanSeams, ReplaceTolerant;
    if edits != [] && Taken(code, edits[0]) {
      var e := edits[0];
      TakenIsContained(code, e);
      ReplaceCommutesWithNorm(code, e.search, e.replacement);
      AgreementMeansCleanSeams(ReplaceTolerant(code, e.search, e.replacement), edits[1..]);
    }
  }

  lemma {:induction false} NoBareCrIsClean(code: string, edits: seq<Edit>)
    requires NoBareCr(code)
    ensures CleanThroughout(code, edits)
    ensures ApplyEdits(code, edits).Ok? ==> NoBareCr(ApplyEdits(code, edits).value)
    decreases |edits|
  {
    hide Norm, NoBareCr, CleanSeams, ReplaceTolerant, TolerantMatches, IsBlank;
    if edits != [] && Taken(code, edits[0]) {
      var e := edits[0];
      TakenIsContained(code, e);
      NoBareCrIsKept(code, e.search, e.replacement);
      NoBareCrIsClean(ReplaceTolerant(code, e.search, e.replacement), edits[1..]);
    }
  }

  /** For every list of edits with clean seams, the tolerant engine refines the plain one:
      same error, or same text up to line endings.  Code without bare CRs has clean seams
      under any edits, and keeps without them. */
  lemma {:induction false} TolerantRefinesPlain(code: string, edits: seq<Edit>)
    ensures CleanThroughout(code, edits) ==>
              var tolerant, plain := ApplyEdits(code, edits), ApplyPlainEdits(Norm(code), NormEdits(edits));
              plain == if tolerant.Ok? then Ok(Norm(tolerant.value)) else tolerant
    ensures NoBareCr(code) ==>
              CleanThroughout(code, edits)
              && (ApplyEdits(code, edits).Ok? ==> NoBareCr(ApplyEdits(code, edits).value))
    decreases |edits|
  {
    hide Norm, CleanSeams, ReplaceTolerant, IsBlank, NoBareCr;
    if NoBareCr(code) { NoBareCrIsClean(code, edits); }
    if edits != [] {
      var e := edits[0];
      NormalizersAgree(e.search);
      BlankIsNormBlank(e.search);
      assert NormEdits(edits)[1..] == NormEdits(edits[1..]);
      if Taken(code, e) {
        TakenIsContained(code, e);
        ReplaceCommutesWithNorm(code, e.search, e.replacement);
        TolerantRefinesPlain(ReplaceTolerant(code, e.search, e.replacement), edits[1..]);
      }
    }
  }
}
