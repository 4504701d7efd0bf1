/** Which line ending a replacement is written in (libreevolve/core/diff.py, lines 94-105 and
    132-148), by counting the line endings of the matched text, and when a file keeps one
    kind of line ending. */
module DominantEndings {
  import opened Text
  import opened LineEndings

  // ----- counting line endings

  /** The CRLF units of a text. */
  function CrLfs(s: string): nat {
    if s == "" then 0 else (if StartsCrLf(s) then 1 else 0) + CrLfs(s[UnitLength(s)..])
  }

  /** The LFs that do not follow a CR. */
  function LoneLfs(s: string): nat {
    if s == "" then 0 else (if s[0] == LF then 1 else 0) + LoneLfs(s[UnitLength(s)..])
  }

  /** The CRs that no LF follows. */
  function LoneCrs(s: string): nat {
    if s == "" then 0 else (if s[0] == CR && !StartsCrLf(s) then 1 else 0) + LoneCrs(s[UnitLength(s)..])
  }

  lemma {:induction false} FindShifts(h: string, n: string, k: nat, from: nat)
    requires k <= from <= |h|
    ensures var r := Find(h[k..], n, from - k); Find(h, n, from) == if r < 0 then -1 else r + k
    decreases |h| - from
  {
    assert Occurs(h, n, from) <==> Occurs(h[k..], n, from - k) by {
      if from + |n| <= |h| { assert h[k..][from - k..from - k + |n|] == h[from..from + |n|]; }
    }
    hide Occurs;
    if !Occurs(h, n, from) && from < |h| { FindShifts(h, n, k, from + 1); }
  }

  lemma {:induction false} CountShifts(h: string, n: string, k: nat, from: nat)
    requires n != "" && k <= from <= |h|
    ensures CountFrom(h, n, from) == CountFrom(h[k..], n, from - k)
    decreases |h| - from
  {
    hide Find, Occurs;
    FindShifts(h, n, k, from);
    var i := Find(h, n, from);
    if i >= 0 { CountShifts(h, n, k, i + |n|); }
  }

  lemma {:induction false} CountHere(h: string, n: string)
    requires n != "" && h != ""
    ensures Count(h, n) == if n <= h then 1 + CountFrom(h, n, |n|) else CountFrom(h, n, 1)
  {
    assert n <= h <==> Occurs(h, n, 0);
    hide Occurs;
    if n <= h { assert Find(h, n, 0) == 0; } else { assert Find(h, n, 0) == Find(h, n, 1); }
  }

  /** Counting goes on after a match at the front, or else from the next character. */
  lemma {:induction false} CountFirst(h: string, n: string)
    requires n != "" && h != ""
    ensures Count(h, n) == if n <= h then 1 + Count(h[|n|..], n) else Count(h[1..], n)
  {
    hide CountFrom, Find, Occurs;
    CountHere(h, n);
    CountShifts(h, n, if n <= h then |n| else 1, if n <= h then |n| else 1);
  }

  lemma NothingToCount(n: string)
    requires n != ""
    ensures Count("", n) == 0
  {
  }

  lemma {:induction false} CrLfsAreCounted(s: string)
    ensures Count(s, "\r\n") == CrLfs(s)
  {
    NothingToCount("\r\n");
    if s != "" {
      CountFirst(s, "\r\n");
      hide Count;
      assert "\r\n" <= s <==> StartsCrLf(s);
      CrLfsAreCounted(s[UnitLength(s)..]);
    }
  }

  /** The text without its CRLF units. */
  function Without(s: string): string {
    ReplaceAll(s, "\r\n", "")
  }

  lemma {:induction false} WithoutFirst(s: string)
    requires s != ""
    ensures Without(s) == (if StartsCrLf(s) then "" else [s[0]]) + Without(s[UnitLength(s)..])
  {
    assert "\r\n" <= s <==> StartsCrLf(s);
    if |s| == 1 {
      assert s[1..] == "" && s == [s[0]];
    }
  }

  lemma {:induction false} LoneEndingsAreCounted(s: string)
    ensures Count(Without(s), "\n") == LoneLfs(s) && Count(Without(s), "\r") == LoneCrs(s)
  {
    NothingToCount("\n");
    NothingToCount("\r");
    if s != "" {
      WithoutFirst(s);
      var rest := s[UnitLength(s)..];
      LoneEndingsAreCounted(rest);
      if StartsCrLf(s) {
        assert "" + Without(rest) == Without(rest);
      } else {
        var w := [s[0]] + Without(rest);
        assert w[1..] == Without(rest);
        CountFirst(w, "\n");
        CountFirst(w, "\r");
        hide Count, Without;
        assert "\n" <= w <==> s[0] == LF;
        assert "\r" <= w <==> s[0] == CR;
      }
    }
  }

  /** The dominant line ending, by counts: CRLF when there is one and no lone ending is more
      frequent; else CR when lone CRs are more frequent than lone LFs; else LF. */
  lemma {:induction false} DominantMeaning(text: string)
    ensures DominantLineEnding(text) == "\r\n" <==>
              CrLfs(text) > 0 && CrLfs(text) >= LoneLfs(text) && CrLfs(text) >= LoneCrs(text)
    ensures DominantLineEnding(text) == "\r" <==>
              DominantLineEnding(text) != "\r\n" && LoneCrs(text) > LoneLfs(text)
    ensures DominantLineEnding(text) == "\n" <==>
              DominantLineEnding(text) != "\r\n" && LoneCrs(text) <= LoneLfs(text)
  {
    CrLfsAreCounted(text);
    LoneEndingsAreCounted(text);
    hide Count;
    assert "\r\n"[0] == CR && "\r\n" != "\r" && "\r\n" != "\n" && "\r" != "\n";
  }

  // ----- texts with one kind of line ending

  predicate OnlyCrLf(s: string) {
    LoneLfs(s) == 0 && LoneCrs(s) == 0
  }

  predicate OnlyLf(s: string) {
    CrLfs(s) == 0 && LoneCrs(s) == 0
  }

  /** Where no CR meets an LF, the line endings of two texts add up. */
  lemma {:induction false} EndingsAdd(a: string, b: string)
    requires !Joins(a, b)
    ensures CrLfs(a + b) == CrLfs(a) + CrLfs(b)
    ensures LoneLfs(a + b) == LoneLfs(a) + LoneLfs(b)
    ensures LoneCrs(a + b) == LoneCrs(a) + LoneCrs(b)
    decreases |a|
  {
    if a == "" {
      assert a + b == b;
    } else {
      UnitOfConcat(a, b);
      assert (a + b)[0] == a[0] && (StartsCrLf(a + b) <==> StartsCrLf(a));
      hide UnitLength, Joins, StartsCrLf;
      EndingsAdd(a[UnitLength(a)..], b);
    }
  }

  /** The line ends of a text are those of its LF text. */
  function Lfs(s: string): nat {
    if s == "" then 0 else (if s[0] == LF then 1 else 0) + Lfs(s[1..])
  }

  lemma {:induction false} LfsAreEndings(s: string)
    ensures Lfs(Norm(s)) == CrLfs(s) + LoneLfs(s) + LoneCrs(s)
  {
    if s != "" {
      NormFirst(s);
      LfsAreEndings(s[UnitLength(s)..]);
      hide Norm;
    }
  }

  lemma {:induction false} SomeLf(s: string)
    ensures Lfs(s) > 0 <==> LF in s
  {
    if s != "" {
      SomeLf(s[1..]);
      assert s == [s[0]] + s[1..];
    }
  }

  /** Text whose CRs all start a CRLF does not end in a CR. */
  lemma {:induction false} NoCrAtTheEnd(s: string)
    requires LoneCrs(s) == 0 && s != ""
    ensures s[|s| - 1] != CR
  {
    var rest := s[UnitLength(s)..];
    if rest != "" { NoCrAtTheEnd(rest); }
  }

  /** LF text written with CRLF has only CRLF, one for every LF; as it is it has only LF. */
  lemma {:induction false} WrittenEndings(s: string)
    requires !HasCr(s)
    ensures OnlyLf(s) && LoneLfs(s) == Lfs(s)
    ensures var w := ReplaceAll(s, "\n", "\r\n"); OnlyCrLf(w) && CrLfs(w) == Lfs(s) && NoBareCr(w)
  {
    ToCrLf(s);
    if s != "" {
      WrittenEndings(s[1..]);
      ReplaceLfFirst(s, "\r\n");
      hide ReplaceAll;
      var first, rest := if s[0] == LF then "\r\n" else [s[0]], ReplaceAll(s[1..], "\n", "\r\n");
      EndingsOfUnit(s[0], first);
      assert !Joins(first, rest);
      EndingsAdd(first, rest);
    }
  }

  lemma {:induction false} EndingsOfUnit(c: char, unit: string)
    requires c != CR && unit == if c == LF then "\r\n" else [c]
    ensures OnlyCrLf(unit) && CrLfs(unit) == if c == LF then 1 else 0
  {
    if c == LF { assert unit[2..] == ""; } else { assert unit[1..] == ""; }
  }

  /** The endings of a replaced text: those around the match, and those written. */
  lemma {:induction false} EndingsOfParts(code: string, search: string, replacement: string)
    requires Contains(Norm(code), Norm(search)) && LoneCrs(code) == 0
    ensures var span := MatchSpan(code, search);
            var a, m, b := code[..span.0], code[span.0..span.1], code[span.1..];
            && CrLfs(code) == CrLfs(a) + CrLfs(m) + CrLfs(b)
            && LoneLfs(code) == LoneLfs(a) + LoneLfs(m) + LoneLfs(b)
            && LoneCrs(a) == LoneCrs(m) == LoneCrs(b) == 0
  {
    hide Norm, Joins, CrLfs, LoneLfs, LoneCrs;
    MatchSpanFacts(code, search);
    var span := MatchSpan(code, search);
    hide MatchSpan;
    var front := code[..span.1];
    EndingsAdd(front, code[span.1..]);
    assert code == front + code[span.1..];
    assert front[..span.0] == code[..span.0] && front[span.0..] == code[span.0..span.1];
    assert !Joins(front[..span.0], front[span.0..]) by { CutInside(code, span.0, span.1); }
    EndingsAdd(front[..span.0], front[span.0..]);
    assert front == front[..span.0] + front[span.0..];
  }

  lemma CutInside(s: string, i: nat, j: nat)
    requires i <= j <= |s| && !Joins(s[..i], s[i..])
    ensures !Joins(s[..j][..i], s[..j][i..])
  {
  }

  lemma {:induction false} EndingsOfResult(code: string, search: string, replacement: string)
    requires Contains(Norm(code), Norm(search)) && LoneCrs(code) == 0
    requires LoneCrs(Middle(code, search, replacement)) == 0
    ensures var span := MatchSpan(code, search);
            var a, m, b := code[..span.0], Middle(code, search, replacement), code[span.1..];
            var result := ReplaceTolerant(code, search, replacement);
            && CrLfs(result) == CrLfs(a) + CrLfs(m) + CrLfs(b)
            && LoneLfs(result) == LoneLfs(a) + LoneLfs(m) + LoneLfs(b)
            && LoneCrs(result) == 0
  {
    hide Norm, CrLfs, LoneLfs, LoneCrs, Middle, MatchSpan, ReplaceTolerant;
    EndingsOfParts(code, search, replacement);
    ReplaceKeepsTextOutsideSpan(code, search, replacement);
    var span := MatchSpan(code, search);
    var a, m, b := code[..span.0], Middle(code, search, replacement), code[span.1..];
    if a != "" { NoCrAtTheEnd(a); }
    if m != "" { NoCrAtTheEnd(m); }
    EndingsAdd(a, m);
    if a + m != "" && m == "" { assert a + m == a; }
    EndingsAdd(a + m, b);
  }

  /** A file with only CRLF line ends keeps only those exactly when the match holds a line end
      or the replacement holds none.  (Otherwise the replacement is written with LF.) */
  lemma {:induction false} CrLfFileStays(code: string, search: string, replacement: string)
    requires OnlyCrLf(code) && Contains(Norm(code), Norm(search))
    ensures OnlyCrLf(ReplaceTolerant(code, search, replacement))
            <==> LF in Norm(search) || LF !in Norm(replacement)
  {
    hide Norm, CrLfs, LoneLfs, LoneCrs, MatchSpan, ReplaceTolerant, DominantLineEnding, ReplaceAll;
    EndingsOfParts(code, search, replacement);
    MatchSpanFacts(code, search);
    var span := MatchSpan(code, search);
    var m := code[span.0..span.1];
    LfsAreEndings(m);
    SomeLf(Norm(search));
    SomeLf(Norm(replacement));
    DominantMeaning(m);
    NormHasNoCr(replacement);
    NormalizersAgree(replacement);
    WrittenEndings(Norm(replacement));
    EndingsOfResult(code, search, replacement);
  }

  /** The condition is needed: a match inside one line of a CRLF file, replaced by two lines,
      leaves an LF among the CRLFs. */
  lemma {:induction false} OneLineMatchMixes()
    ensures OnlyCrLf("a\r\n") && Contains(Norm("a\r\n"), Norm("a"))
    ensures !OnlyCrLf(ReplaceTolerant("a\r\n", "a", "b\nc"))
  {
    hide Norm, CrLfs, LoneLfs, LoneCrs, ReplaceTolerant;
    OneCrLfLine();
    NormOfCrFree("a");
    NormOfCrFree("b\nc");
    assert Occurs("a\n", "a", 0);
    assert "b\nc"[1] == LF;
    CrLfFileStays("a\r\n", "a", "b\nc");
  }

  lemma {:induction false} OneCrLfLine()
    ensures OnlyCrLf("a\r\n") && Norm("a\r\n") == "a\n"
  {
    assert "a\r\n"[1..] == "\r\n" && "\r\n"[2..] == "";
    assert Norm("\r\n") == "\n";
  }

  /** A file with only LF line ends always keeps only those. */
  lemma {:induction false} LfFileStays(code: string, search: string, replacement: string)
    requires OnlyLf(code) && Contains(Norm(code), Norm(search))
    ensures OnlyLf(ReplaceTolerant(code, search, replacement))
  {
    hide Norm, CrLfs, LoneLfs, LoneCrs, MatchSpan, ReplaceTolerant, DominantLineEnding, ReplaceAll;
    EndingsOfParts(code, search, replacement);
    var span := MatchSpan(code, search);
    DominantMeaning(code[span.0..span.1]);
    NormHasNoCr(replacement);
    NormalizersAgree(replacement);
    WrittenEndings(Norm(replacement));
    EndingsOfResult(code, search, replacement);
  }
}
