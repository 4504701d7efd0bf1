/** What the shape check of a SEARCH/REPLACE response looks at (libreevolve/core/diff.py,
    lines 34-53 and 176-191): the text inside one wrapping fence, and everything outside its
    blocks. */
module ResponseShape {
  import opened Text
  import opened LineEndings
  import opened DiffBlocks

  // ----- fences

  /** The text is one fenced block: an opening fence line, a body of whole lines, and a closing
      fence, with only white space around. */
  predicate IsFenced(text: string, open: string, body: string, close: string) {
    && Strip(text) == open + "\n" + body + close
    && LF !in open && IsOpeningFence(open) && IsClosingFence(close)
    && (body == "" || body[|body| - 1] == LF)
  }

  predicate AreBlanks(s: string) {
    forall c <- s :: c == ' ' || c == '\t'
  }

  const FENCE_SIGNS: set<char> := {'_', '.', ':', '+', '-'}

  predicate IsFenceInfo(s: string) {
    forall c <- s :: c in ALPHANUMERIC || c in FENCE_SIGNS
  }

  /** Trimming takes off exactly the blanks at the end. */
  lemma {:induction false} TrimMeaning(word: string, blanks: string)
    requires AreBlanks(blanks) && (word != "" ==> !AreBlanks([word[|word| - 1]]))
    ensures TrimBlanks(word + blanks) == word
  {
    if blanks == "" {
      assert word + blanks == word;
      if word != "" { assert [word[|word| - 1]][0] == word[|word| - 1]; }
    } else {
      var all := word + blanks;
      assert all[|all| - 1] == blanks[|blanks| - 1] && blanks[|blanks| - 1] in blanks;
      assert all[..|all| - 1] == word + blanks[..|blanks| - 1];
      var fewer := blanks[..|blanks| - 1];
      forall c | c in fewer ensures c == ' ' || c == '\t' { assert c in blanks; }
      TrimMeaning(word, fewer);
    }
  }

  lemma {:induction false} TrimSplits(s: string)
    ensures exists blanks :: AreBlanks(blanks) && s == TrimBlanks(s) + blanks
  {
    if s != "" && (s[|s| - 1] == ' ' || s[|s| - 1] == '\t') {
      TrimSplits(s[..|s| - 1]);
      var blanks :| AreBlanks(blanks) && s[..|s| - 1] == TrimBlanks(s) + blanks;
      assert s == TrimBlanks(s) + (blanks + [s[|s| - 1]]);
      assert AreBlanks(blanks + [s[|s| - 1]]);
    } else {
      assert s == TrimBlanks(s) + "" && AreBlanks("");
    }
  }

  lemma {:induction false} InfoIsFenceWord(s: string)
    ensures IsFenceInfo(s) <==> forall c <- s :: IsFenceWord(c)
  {
    hide ALPHANUMERIC;
    forall c: char ensures IsFenceWord(c) <==> c in ALPHANUMERIC || c in FENCE_SIGNS { AlphanumericMeaning(c); }
  }

  /** An opening fence is three backquotes, an info word of letters, digits and signs, which may
      be empty, and blanks; a closing one has no word. */
  lemma {:induction false} FenceMeaning(line: string)
    ensures IsOpeningFence(line) <==>
              exists word, blanks :: IsFenceInfo(word) && AreBlanks(blanks) && line == "```" + word + blanks
    ensures IsClosingFence(line) <==> exists blanks :: AreBlanks(blanks) && line == "```" + blanks
  {
    hide IsFenceInfo, TrimBlanks, IsFenceWord;
    if "```" <= line {
      var rest := line[3..];
      TrimSplits(rest);
      var blanks :| AreBlanks(blanks) && rest == TrimBlanks(rest) + blanks;
      InfoIsFenceWord(TrimBlanks(rest));
      assert line == "```" + rest && "```" + rest == "```" + TrimBlanks(rest) + blanks;
      if TrimBlanks(rest) == "" { assert TrimBlanks(rest) + blanks == blanks; }
    }
    forall word, blanks | IsFenceInfo(word) && AreBlanks(blanks) && line == "```" + word + blanks
      ensures IsOpeningFence(line) && (word == "" ==> IsClosingFence(line))
    {
      if word != "" { InfoEndsVisibly(word); }
      TrimMeaning(word, blanks);
      InfoIsFenceWord(word);
      assert line[3..] == word + blanks;
    }
    forall blanks | AreBlanks(blanks) && line == "```" + blanks ensures IsClosingFence(line) {
      TrimMeaning("", blanks);
      assert line[3..] == "" + blanks;
    }
  }

  lemma {:induction false} InfoEndsVisibly(word: string)
    requires IsFenceInfo(word) && word != ""
    ensures !AreBlanks([word[|word| - 1]])
  {
    var c := word[|word| - 1];
    assert c in word && [c][0] == c;
    AlphanumericMeaning(c);
    hide ALPHANUMERIC;
    assert c in [c];
  }

  lemma {:induction false} NothingAfterTrim(s: string)
    ensures TrimBlanks(s) == "" ==> LF !in s
    decreases |s|
  {
    if s != "" && (s[|s| - 1] == ' ' || s[|s| - 1] == '\t') {
      NothingAfterTrim(s[..|s| - 1]);
      assert s == s[..|s| - 1] + [s[|s| - 1]];
    }
  }

  lemma {:induction false} ClosingHasNoLf(close: string)
    requires IsClosingFence(close)
    ensures LF !in close && |close| >= 3 && close[..3] == "```"
  {
    NothingAfterTrim(close[3..]);
    assert close == "```" + close[3..];
  }

  /** One wrapping fence is removed, and nothing else ever is. */
  lemma {:induction false} StripFencesMeaning(text: string)
    ensures forall open, body, close :: IsFenced(text, open, body, close) ==> StripFences(text) == body
    ensures (forall open, body, close :: !IsFenced(text, open, body, close)) ==> StripFences(text) == text
  {
    hide Strip, IsOpeningFence, IsClosingFence, StripFences;
    forall open, body, close | IsFenced(text, open, body, close) ensures StripFences(text) == body {
      FencedIsStripped(text, open, body, close);
    }
    if StripFences(text) != text {
      var open, body, close := StrippedIsFenced(text);
    }
  }

  lemma {:induction false} FencedIsStripped(text: string, open: string, body: string, close: string)
    requires IsFenced(text, open, body, close)
    ensures StripFences(text) == body
  {
    hide StripFences, Strip, IsOpeningFence, IsClosingFence, Find, FindLast, Occurs;
    ClosingHasNoLf(close);
    FirstLineEnd(open, body + close);
    LastFence(open + "\n" + body, close);
    Parts(open, body, close);
    StripsTo(text, |open|, |open| + |body|);
  }

  lemma {:induction false} Parts(open: string, body: string, close: string)
    ensures var t := open + "\n" + body + close;
            && t == open + "\n" + (body + close) && |t| == |open| + 1 + |body| + |close|
            && t[..|open|] == open && t[|open| + 1..|open| + |body| + 1] == body && t[|open| + |body| + 1..] == close
  {
  }

  /** The function on a text whose fence lines are known. */
  lemma {:induction false} StripsTo(text: string, first: nat, closing: nat)
    requires var candidate := Strip(text);
             && first <= closing < |candidate|
             && Find(candidate, "\n", 0) == first && FindLast(candidate, "\n```", |candidate|) == closing
             && IsOpeningFence(candidate[..first]) && IsClosingFence(candidate[closing + 1..])
    ensures StripFences(text) == Strip(text)[first + 1..closing + 1]
  {
    hide Strip, IsOpeningFence, IsClosingFence, Find, FindLast, Occurs;
  }

  lemma {:induction false} FirstLineEnd(line: string, rest: string)
    requires LF !in line
    ensures Find(line + "\n" + rest, "\n", 0) == |line|
  {
    var t := line + "\n" + rest;
    assert t[|line|] == LF;
    OccursByChar(t, "\n", |line|);
    forall j | 0 <= j < |line| ensures !Occurs(t, "\n", j) {
      OccursByChar(t, "\n", j);
      assert t[j] == line[j];
      assert "\n"[0] == LF;
    }
  }

  lemma {:induction false} LastFence(front: string, close: string)
    requires front != "" && front[|front| - 1] == LF && LF !in close && |close| >= 3 && close[..3] == "```"
    ensures FindLast(front + close, "\n```", |front + close|) == |front| - 1
  {
    var t, at := front + close, |front| - 1;
    assert t[at..at + 4] == [LF] + close[..3];
    assert "\n```" == [LF] + "```";
    assert Occurs(t, "\n```", at);
    forall j | at < j <= |t| ensures !Occurs(t, "\n```", j) {
      OccursByChar(t, "\n```", j);
      assert "\n```"[0] == LF;
      if j < |t| { assert t[j] == close[j - |front|]; }
    }
  }

  /** The first line end is a line feed with none before it. */
  lemma {:induction false} NoLfBefore(candidate: string, at: nat)
    requires Find(candidate, "\n", 0) == at
    ensures at < |candidate| && candidate[at] == LF && LF !in candidate[..at]
  {
    OccursByChar(candidate, "\n", at);
    assert "\n"[0] == LF;
    forall j | 0 <= j < at ensures candidate[j] != LF {
      OccursByChar(candidate, "\n", j);
    }
  }

  lemma {:induction false} LastFenceIsLater(candidate: string, first: nat, closing: nat)
    requires Find(candidate, "\n", 0) == first && FindLast(candidate, "\n```", |candidate|) == closing
    ensures first <= closing < |candidate| && candidate[closing] == LF
  {
    OccursByChar(candidate, "\n```", closing);
    OccursByChar(candidate, "\n", closing);
    assert "\n"[0] == LF && "\n```"[0] == LF;
  }

  lemma {:induction false} StrippedIsFenced(text: string) returns (open: string, body: string, close: string)
    requires StripFences(text) != text
    ensures IsFenced(text, open, body, close)
  {
    hide StripFences, Strip, IsOpeningFence, IsClosingFence, Find, FindLast, Occurs;
    var candidate := Strip(text);
    var first, closing := HasFences(text);
    NoLfBefore(candidate, first);
    LastFenceIsLater(candidate, first, closing);
    open, body, close := candidate[..first], candidate[first + 1..closing + 1], candidate[closing + 1..];
    assert candidate == open + "\n" + body + close;
  }

  lemma {:induction false} HasFences(text: string) returns (first: nat, closing: nat)
    requires StripFences(text) != text
    ensures var candidate := Strip(text);
            && Find(candidate, "\n", 0) == first && FindLast(candidate, "\n```", |candidate|) == closing
            && first <= |candidate| && IsOpeningFence(candidate[..first])
            && closing < |candidate| && IsClosingFence(candidate[closing + 1..])
  {
    hide Strip, IsOpeningFence, IsClosingFence, Find, FindLast;
    var candidate := Strip(text);
    first, closing := Find(candidate, "\n", 0), FindLast(candidate, "\n```", |candidate|);
  }

  // ----- what is left over

  lemma {:induction false} BlankConcat(a: string, b: string)
    ensures IsBlank(a + b) <==> IsBlank(a) && IsBlank(b)
  {
    assert forall c <- a :: c in a + b;
    assert forall c <- b :: c in a + b;
  }

  lemma {:induction false} BlankSegments(s: Strippers, segments: seq<string>)
    ensures IsBlank(StripFollowing(s, segments)) <==>
              forall i :: 0 <= i < |segments| ==> IsBlank(s.following(segments[i]))
    decreases |segments|
  {
    hide IsBlank;
    if segments == [] {
      BlankNothing();
    } else {
      BlankSegments(s, segments[1..]);
      BlankConcat(s.following(segments[0]), StripFollowing(s, segments[1..]));
      if forall i :: 0 <= i < |segments| ==> IsBlank(s.following(segments[i])) {
        assert forall i :: 0 <= i < |segments[1..]| ==> segments[1..][i] == segments[i + 1];
      }
      if IsBlank(StripFollowing(s, segments)) {
        forall i | 0 <= i < |segments| ensures IsBlank(s.following(segments[i])) {
          if i > 0 { assert segments[1..][i - 1] == segments[i]; }
        }
      }
    }
  }

  lemma BlankNothing()
    ensures IsBlank("")
  {
  }

  /** A response is refused for left-over text exactly when it has blocks and some piece of the
      text outside them stays visible after its metadata has been taken out: the piece before
      the first block with the one stripper, each other piece with the other. */
  lemma {:induction false} RemainderMeaning(t: string, s: Strippers)
    requires SpansInside(DiffMatches(t), t)
    ensures var pieces := Outside(t, DiffMatches(t), 0);
            IsBlank(Remainder(t, s)) <==>
              IsBlank(s.leading(pieces[0])) && forall i :: 1 <= i < |pieces| ==> IsBlank(s.following(pieces[i]))
  {
    hide IsBlank, DiffMatches, Outside;
    var pieces := Outside(t, DiffMatches(t), 0);
    BlankSegments(s, pieces[1..]);
    BlankConcat(s.leading(pieces[0]), StripFollowing(s, pieces[1..]));
    assert forall i :: 1 <= i < |pieces| ==> pieces[i] == pieces[1..][i - 1];
    assert forall i :: 0 <= i < |pieces[1..]| ==> pieces[1..][i] == pieces[i + 1];
  }

  /** Spans in order that do not overlap. */
  predicate InOrder(spans: seq<Match>, from: nat) {
    && (spans != [] ==> from <= spans[0].start)
    && (forall i :: 0 <= i < |spans| ==> spans[i].start <= spans[i].end)
    && (forall i :: 0 <= i < |spans| - 1 ==> spans[i].end <= spans[i + 1].start)
  }

  /** The text with the pieces and the spans put together again. */
  function Together(t: string, spans: seq<Match>, pieces: seq<string>): string
    requires SpansInside(spans, t) && |pieces| == |spans| + 1
  {
    if spans == [] then pieces[0]
    else pieces[0] + Slice(t, spans[0].start, spans[0].end) + Together(t, spans[1..], pieces[1..])
  }

  /** For blocks that do not overlap, the pieces are exactly the text outside the blocks. */
  lemma {:induction false} PiecesMeaning(t: string, spans: seq<Match>, cursor: nat)
    requires cursor <= |t| && SpansInside(spans, t) && InOrder(spans, cursor)
    ensures Together(t, spans, Outside(t, spans, cursor)) == t[cursor..]
    decreases |spans|
  {
    if spans != [] {
      var m, rest := spans[0], spans[1..];
      assert m in spans && forall x <- rest :: x in spans;
      RestInOrder(spans, cursor);
      hide InOrder, SpansInside;
      PiecesMeaning(t, rest, m.end);
      hide Outside, Together;
      PiecesFirst(t, spans, cursor);
      CutTwice(t, cursor, m.start, m.end);
    }
  }

  lemma {:induction false} RestInOrder(spans: seq<Match>, cursor: nat)
    requires InOrder(spans, cursor) && spans != []
    ensures InOrder(spans[1..], spans[0].end) && cursor <= spans[0].start <= spans[0].end
  {
    var rest := spans[1..];
    assert rest != [] ==> rest[0] == spans[1] && spans[0].end <= spans[1].start;
    forall i | 0 <= i < |rest|
      ensures rest[i].start <= rest[i].end && (i < |rest| - 1 ==> rest[i].end <= rest[i + 1].start)
    {
      assert rest[i] == spans[i + 1];
    }
  }

  lemma {:induction false} PiecesFirst(t: string, spans: seq<Match>, cursor: nat)
    requires cursor <= |t| && SpansInside(spans, t) && spans != []
    requires spans[0].start <= |t| && spans[0].end <= |t| && SpansInside(spans[1..], t)
    ensures Together(t, spans, Outside(t, spans, cursor))
            == Slice(t, cursor, spans[0].start) + Slice(t, spans[0].start, spans[0].end)
               + Together(t, spans[1..], Outside(t, spans[1..], spans[0].end))
  {
    hide SpansInside, Slice;
    assert Outside(t, spans, cursor)[1..] == Outside(t, spans[1..], spans[0].end);
  }

  lemma CutTwice(t: string, i: nat, j: nat, k: nat)
    requires i <= j <= k <= |t|
    ensures t[i..j] + t[j..k] + t[k..] == t[i..]
  {
  }
}
