/** Printing SEARCH/REPLACE blocks and reading them back: the syntax documented for
    mutation responses loses nothing, in either spelling, fenced or not. */
module DiffRoundTrip {
  import opened Text
  import opened LineEndings
  import opened DiffBlocks

  /** A block to print, followed by `gap` empty lines. */
  datatype Block = Block(style: Style, search: string, replacement: string, gap: nat)

  function Newlines(n: nat): string {
    seq(n, _ => LF)
  }

  function Joined(p: Pattern, search: string, replacement: string): string {
    p.open + search + p.sep + replacement + p.close
  }

  function Body(b: Block): string {
    Joined(PatternOf(b.style), b.search, b.replacement)
  }

  function Printed(b: Block): string {
    Body(b) + Newlines(b.gap + 1)
  }

  function Print(bs: seq<Block>): string {
    if bs == [] then "" else Printed(bs[0]) + Print(bs[1..])
  }

  /** No CR is last or stands before an LF. */
  predicate NoPair(s: string) {
    forall i :: 0 <= i < |s| && s[i] == CR ==> i + 1 < |s| && s[i + 1] != LF
  }

  /** A text that parsing neither normalises nor trims. */
  predicate Verbatim(s: string) {
    (s != "" ==> s[|s| - 1] != LF) && NoPair(s)
  }

  /** The delimiters after the two texts are the first ones of their kind. */
  predicate Delimited(b: Block) {
    var p := PatternOf(b.style);
    && Find(b.search + p.sep, p.sep, 0) == |b.search|
    && Find(b.replacement + p.close, p.close, 0) == |b.replacement|
  }

  /** No block of the given style can seem to start inside the texts of `b`. */
  predicate NoStartInside(b: Block, style: Style) {
    !Contains(b.search, style.open) && !Contains(b.replacement, style.open)
  }

  predicate Clean(b: Block) {
    && (b.style == COMPACT || b.style == CANONICAL)
    && Verbatim(b.search) && Verbatim(b.replacement)
    && Delimited(b) && NoStartInside(b, COMPACT) && NoStartInside(b, CANONICAL)
  }

  predicate AllClean(bs: seq<Block>) {
    forall b <- bs :: Clean(b)
  }

  function Edits(bs: seq<Block>): seq<Edit> {
    seq(|bs|, i requires 0 <= i < |bs| => Edit(bs[i].search, bs[i].replacement))
  }

  /** The usual way to be clean: no line of a text starts like a delimiter. */
  lemma {:induction false} DelimiterFreeIsDelimited(b: Block)
    requires b.style.middle != "" && b.style.close != "" && LF !in b.style.middle && LF !in b.style.close
    requires !Contains(b.search, "\n" + b.style.middle)
    requires !Contains(b.replacement, "\n" + b.style.close)
    ensures Delimited(b)
  {
    var p := PatternOf(b.style);
    FirstOfItsKind(b.search, p.sep, b.style.middle);
    FirstOfItsKind(b.replacement, p.close, b.style.close);
  }

  lemma {:induction false} FirstOfItsKind(s: string, delimiter: string, line: string)
    requires "\n" + line <= delimiter && line != "" && LF !in line
    requires !Contains(s, "\n" + line)
    ensures Find(s + delimiter, delimiter, 0) == |s|
  {
    var t, head := s + delimiter, "\n" + line;
    assert t[|s|..] == delimiter;
    assert Occurs(t, delimiter, |s|);
    forall j | 0 <= j < |s|
      ensures !Occurs(t, delimiter, j)
    {
      OccursByChar(t, delimiter, j);
      OccursByChar(s, head, j);
      assert forall k :: 0 <= k < |head| ==> head[k] == delimiter[k];
      assert t[|s|] == delimiter[0] == LF;
      var k := |s| - j;
      assert k < |head| ==> head[k] == line[k - 1] && line[k - 1] != LF;
    }
  }

  // ----- where delimiters can and cannot occur

  lemma {:induction false} FindInside(a: string, s: string, n: string, b: string)
    requires n != "" && Find(s + n, n, 0) == |s|
    ensures Find(a + (s + n) + b, n, |a|) == |a| + |s|
  {
    var t := a + (s + n) + b;
    assert t[|a| + |s|..|a| + |s| + |n|] == n;
    assert Occurs(t, n, |a| + |s|);
    forall j | |a| <= j < |a| + |s|
      ensures !Occurs(t, n, j)
    {
      assert t[j..j + |n|] == (s + n)[j - |a|..j - |a| + |n|];
      assert !Occurs(s + n, n, j - |a|);
    }
  }

  lemma {:induction false} ContainsAcrossLine(a: string, b: string, n: string)
    requires n != "" && LF !in n && !Contains(a, n) && !Contains(b, n)
    ensures !Contains(a + "\n" + b, n)
  {
    var t := a + "\n" + b;
    forall i | 0 <= i <= |t|
      ensures !Occurs(t, n, i)
    {
      OccursByChar(t, n, i);
      OccursByChar(a, n, i);
      OccursByChar(b, n, i - |a| - 1);
      assert t[|a|] == LF;
      assert 0 <= |a| - i < |n| ==> n[|a| - i] != LF;
    }
  }

  /** A block of style `style` cannot seem to start in the delimiter lines of `other`. */
  predicate Apart(style: Style, other: Style) {
    !Contains(other.open, style.open) && !Contains(other.middle, style.open) && !Contains(other.close, style.open)
  }

  lemma {:induction false} StylesAreApart()
    ensures Apart(COMPACT, CANONICAL) && Apart(CANONICAL, COMPACT)
  {
    CompactNotInCanonical();
    CanonicalNotInCompact();
  }

  lemma {:induction false} CompactNotInCanonical()
    ensures Apart(COMPACT, CANONICAL)
  {
    NoCompactOpen(CANONICAL.open);
    NoCompactOpen(CANONICAL.middle);
    NoCompactOpen(CANONICAL.close);
  }

  /** In the compact form the angle brackets touch the keyword. */
  lemma {:induction false} NoCompactOpen(line: string)
    requires forall k :: 0 < k < |line| && line[k] == 'S' ==> line[k - 1] != '<'
    ensures !Contains(line, COMPACT.open)
  {
    forall i
      ensures !Occurs(line, COMPACT.open, i)
    {
      OccursByChar(line, COMPACT.open, i);
      assert COMPACT.open[2] == '<' && COMPACT.open[3] == 'S';
      hide Occurs;
    }
  }

  lemma {:induction false} CanonicalNotInCompact()
    ensures Apart(CANONICAL, COMPACT)
  {
    forall i
      ensures !Occurs(COMPACT.open, CANONICAL.open, i) && !Occurs(COMPACT.middle, CANONICAL.open, i)
      ensures !Occurs(COMPACT.close, CANONICAL.open, i)
    {
    }
  }

  predicate OneLine(style: Style) {
    style.open != "" && style.open[0] == '<' && LF !in style.open
  }

  lemma {:induction false} NoOpenLineInPrinted(style: Style, b: Block)
    requires OneLine(style) && NoStartInside(b, style) && Apart(style, b.style)
    ensures !Contains(Printed(b), style.open)
  {
    var n := style.open;
    var g := Newlines(b.gap);
    forall i
      ensures !Occurs(g, n, i)
    {
      OccursByChar(g, n, i);
    }
    NotContainedInLines(n, b.style.open, b.search, b.style.middle, b.replacement, b.style.close, g);
    PrintedByLines(b);
  }

  lemma {:induction false} PrintedByLines(b: Block)
    ensures Printed(b) == b.style.open + "\n" + (b.search + "\n" + (b.style.middle + "\n"
                          + (b.replacement + "\n" + (b.style.close + "\n" + Newlines(b.gap)))))
  {
    assert Newlines(b.gap + 1) == "\n" + Newlines(b.gap);
  }

  lemma {:induction false} NotContainedInLines(
      n: string, o: string, s: string, m: string, r: string, c: string, g: string)
    requires n != "" && LF !in n
    requires !Contains(o, n) && !Contains(s, n) && !Contains(m, n)
    requires !Contains(r, n) && !Contains(c, n) && !Contains(g, n)
    ensures !Contains(o + "\n" + (s + "\n" + (m + "\n" + (r + "\n" + (c + "\n" + g)))), n)
  {
    ContainsAcrossLine(c, g, n);
    ContainsAcrossLine(r, c + "\n" + g, n);
    ContainsAcrossLine(m, r + "\n" + (c + "\n" + g), n);
    ContainsAcrossLine(s, m + "\n" + (r + "\n" + (c + "\n" + g)), n);
    ContainsAcrossLine(o, s + "\n" + (m + "\n" + (r + "\n" + (c + "\n" + g))), n);
  }

  /** A delimiter line starting inside a text that ends with LF lies inside it. */
  lemma {:induction false} NoOpenBetween(pre: string, r: string, rest: string, line: string)
    requires r != "" && r[|r| - 1] == LF && LF !in line && !Contains(r, line) && line != ""
    ensures forall j :: |pre| <= j < |pre| + |r| ==> !Occurs(pre + r + rest, line + "\n", j)
  {
    var t := pre + r + rest;
    var n := line + "\n";
    forall j | |pre| <= j < |pre| + |r|
      ensures !Occurs(t, n, j)
    {
      OccursByChar(t, n, j);
      OccursByChar(r, line, j - |pre|);
      assert t[|pre| + |r| - 1] == LF;
      var k := |pre| + |r| - 1 - j;
      assert k < |line| ==> n[k] == line[k] && line[k] != LF;
      assert forall i :: 0 <= i < |line| ==> n[i] == line[i];
      assert forall i :: 0 <= i < |r| ==> r[i] == t[|pre| + i];
    }
  }

  lemma {:induction false} FindSkips(h: string, n: string, from: nat, to: nat)
    requires from <= to <= |h| && forall j :: from <= j < to ==> !Occurs(h, n, j)
    ensures Find(h, n, from) == Find(h, n, to)
    decreases |h| - from
  {
    if from < to {
      assert !Occurs(h, n, from);
      FindSkips(h, n, from + 1, to);
    }
  }

  lemma {:induction false} AllMatchesSkips(p: Pattern, t: string, from: nat, to: nat)
    requires p.open != "" && from <= to <= |t| && forall j :: from <= j < to ==> !Occurs(t, p.open, j)
    ensures AllMatches(p, t, from) == AllMatches(p, t, to)
  {
    FirstMatchSkips(p, t, from, to);
  }

  lemma {:induction false} FirstMatchSkips(p: Pattern, t: string, from: nat, to: nat)
    requires p.open != "" && from <= to <= |t| && forall j :: from <= j < to ==> !Occurs(t, p.open, j)
    ensures FirstMatch(p, t, from) == FirstMatch(p, t, to)
  {
    hide Occurs;
    FindSkips(t, p.open, from, to);
  }

  // ----- the matches in a printed document

  function MatchAt(b: Block, at: nat): Match {
    Match(at, at + |Body(b)|, b.search, b.replacement)
  }

  function InOrder(bs: seq<Block>, at: nat): seq<Match> {
    if bs == [] then [] else [MatchAt(bs[0], at)] + InOrder(bs[1..], at + |Printed(bs[0])|)
  }

  function OfStyle(bs: seq<Block>, style: Style, at: nat): seq<Match> {
    if bs == [] then []
    else (if bs[0].style == style then [MatchAt(bs[0], at)] else []) + OfStyle(bs[1..], style, at + |Printed(bs[0])|)
  }

  lemma {:induction false} FirstMatchOfPieces(pre: string, p: Pattern, s: string, r: string, rest: string)
    requires p.open != "" && p.sep != "" && p.close != ""
    requires Find(s + p.sep, p.sep, 0) == |s| && Find(r + p.close, p.close, 0) == |r|
    ensures FirstMatch(p, pre + Joined(p, s, r) + rest, |pre|)
            == Some(Match(|pre|, |pre| + |Joined(p, s, r)|, s, r))
  {
    hide Find, Occurs;
    var t := pre + Joined(p, s, r) + rest;
    var a1, a2 := pre + p.open, pre + p.open + s + p.sep;
    JoinedSplits(pre, p, s, r, rest);
    FindAtOnce(pre, p.open, s + p.sep + r + p.close + rest);
    FindInside(a1, s, p.sep, r + p.close + rest);
    FindInside(a2, r, p.close, rest);
    FirstMatchAt(p, t, |pre|, |a1| + |s|, |a2| + |r|);
  }

  lemma {:induction false} JoinedSplits(pre: string, p: Pattern, s: string, r: string, rest: string)
    ensures var t, a1, a2 := pre + Joined(p, s, r) + rest, pre + p.open, pre + p.open + s + p.sep;
            && t == pre + p.open + (s + p.sep + r + p.close + rest)
            && t == a1 + (s + p.sep) + (r + p.close + rest)
            && t == a2 + (r + p.close) + rest
            && t[|a1|..|a1| + |s|] == s
            && t[|a2|..|a2| + |r|] == r
  {
    var a1, a2 := pre + p.open, pre + p.open + s + p.sep;
    SplitsOfFive(pre, p.open, s + p.sep, r + p.close, rest);
    assert Joined(p, s, r) == p.open + (s + p.sep) + (r + p.close);
    assert s + p.sep + r + p.close + rest == (s + p.sep) + (r + p.close + rest);
    assert a2 == a1 + (s + p.sep);
    SliceInMiddle(a1, s, p.sep, r + p.close + rest);
    SliceInMiddle(a2, r, p.close, rest);
  }

  lemma {:induction false} SplitsOfFive(a: string, b: string, c: string, d: string, e: string)
    ensures var t := a + (b + c + d) + e;
            t == a + b + (c + (d + e)) && t == (a + b) + c + (d + e) && t == (a + b + c) + d + e
  {
    assert (a + b + c) + d + e == (a + b + c) + (d + e);
    assert a + (b + c + d) == (a + b + c) + d;
    assert (a + b) + c + (d + e) == (a + b) + (c + (d + e));
  }

  lemma {:induction false} SliceInMiddle(a: string, s: string, b: string, c: string)
    ensures (a + (s + b) + c)[|a|..|a| + |s|] == s
  {
    assert (a + (s + b) + c)[|a|..] == s + (b + c);
  }

  lemma {:induction false} FirstMatchAt(p: Pattern, t: string, i: nat, j: nat, k: nat)
    requires i + |p.open| <= j && j + |p.sep| <= k && k + |p.close| <= |t|
    requires Find(t, p.open, i) == i && Find(t, p.sep, i + |p.open|) == j && Find(t, p.close, j + |p.sep|) == k
    ensures FirstMatch(p, t, i) == Some(Match(i, k + |p.close|, t[i + |p.open|..j], t[j + |p.sep|..k]))
  {
    hide Find, Occurs;
  }

  lemma {:induction false} FindAtOnce(a: string, n: string, b: string)
    ensures Find(a + n + b, n, |a|) == |a|
  {
    assert (a + n + b)[|a|..|a| + |n|] == n;
  }

  lemma {:induction false} AllMatchesInPrint(style: Style, pre: string, bs: seq<Block>)
    requires OneLine(style)
    requires forall b <- bs :: Delimited(b) && NoStartInside(b, style) && (b.style == style || Apart(style, b.style))
    ensures AllMatches(PatternOf(style), pre + Print(bs), |pre|) == OfStyle(bs, style, |pre|)
    decreases |bs|
  {
    hide Find, Occurs, FirstMatch, Printed, Delimited, NoStartInside, Apart, AllMatches, MatchAt, OneLine, PatternOf;
    var p := PatternOf(style);
    if bs == [] {
      OpensWithText(style);
      NoMatchAtEnd(p, pre);
      assert pre + Print(bs) == pre;
    } else {
      var b, rest := bs[0], Print(bs[1..]);
      assert b in bs;
      var next := pre + Printed(b);
      AllMatchesInPrint(style, next, bs[1..]);
      assert pre + Print(bs) == next + rest;
      if b.style == style {
        OwnBlockMatches(pre, b, rest);
      } else {
        OtherBlockIsSkipped(style, pre, b, rest);
      }
    }
  }

  lemma OpensWithText(style: Style)
    requires OneLine(style)
    ensures PatternOf(style).open != ""
  {
  }

  lemma NoMatchAtEnd(p: Pattern, t: string)
    requires p.open != ""
    ensures AllMatches(p, t, |t|) == []
  {
  }

  lemma {:induction false} OwnBlockMatches(pre: string, b: Block, rest: string)
    requires OneLine(b.style) && Delimited(b)
    ensures var p, next := PatternOf(b.style), pre + Printed(b);
            AllMatches(p, next + rest, |pre|) == [MatchAt(b, |pre|)] + AllMatches(p, next + rest, |next|)
  {
    hide Find, Occurs, FirstMatch, Joined;
    var p, gap := PatternOf(b.style), Newlines(b.gap + 1);
    var t := pre + Printed(b) + rest;
    var end := |pre| + |Body(b)|;
    assert t == pre + Body(b) + (gap + rest);
    FirstMatchOfPieces(pre, p, b.search, b.replacement, gap + rest);
    forall j | end <= j < |pre| + |Printed(b)|
      ensures !Occurs(t, p.open, j)
    {
      OccursByChar(t, p.open, j);
      assert t[j] == gap[j - end];
      assert p.open[0] == '<';
    }
    AllMatchesSkips(p, t, end, |pre| + |Printed(b)|);
  }

  lemma {:induction false} OtherBlockIsSkipped(style: Style, pre: string, b: Block, rest: string)
    requires OneLine(style) && NoStartInside(b, style) && Apart(style, b.style)
    ensures var p, next := PatternOf(style), pre + Printed(b);
            AllMatches(p, next + rest, |pre|) == AllMatches(p, next + rest, |next|)
  {
    hide Find, Occurs, FirstMatch, NoStartInside, Apart, Contains, Body, AllMatches;
    NoOpenLineInPrinted(style, b);
    NoOpenBetween(pre, Printed(b), rest, style.open);
    AllMatchesSkips(PatternOf(style), pre + Printed(b) + rest, |pre|, |pre| + |Printed(b)|);
  }

  // ----- sorting puts the two lists together again

  predicate StrictlySorted(ms: seq<Match>) {
    forall i, j :: 0 <= i < j < |ms| ==> ms[i].start < ms[j].start
  }

  lemma {:induction false} InOrderPermutes(bs: seq<Block>, a: Style, b: Style, at: nat)
    requires a != b && OnlyStyles(bs, a, b)
    ensures multiset(InOrder(bs, at)) == multiset(OfStyle(bs, a, at)) + multiset(OfStyle(bs, b, at))
    decreases |bs|
  {
    if bs != [] {
      hide Printed, MatchAt, InOrder, OfStyle, OnlyStyles;
      var next := at + |Printed(bs[0])|;
      OnlyStylesLeft(bs, a, b);
      InOrderPermutes(bs[1..], a, b, next);
      FirstOfStyle(bs, a, at);
      FirstOfStyle(bs, b, at);
      ConsPermutes(MatchAt(bs[0], at), InOrder(bs[1..], next), OfStyle(bs[1..], a, next), OfStyle(bs[1..], b, next),
                   OfStyle(bs, a, at), OfStyle(bs, b, at));
    } else {
      NoneOfStyle(a, at);
      NoneOfStyle(b, at);
    }
  }

  predicate OnlyStyles(bs: seq<Block>, a: Style, b: Style) {
    forall x <- bs :: x.style == a || x.style == b
  }

  lemma {:induction false} OnlyStylesLeft(bs: seq<Block>, a: Style, b: Style)
    requires bs != [] && OnlyStyles(bs, a, b)
    ensures bs[0].style == a || bs[0].style == b
    ensures OnlyStyles(bs[1..], a, b)
  {
    assert bs[0] in bs && forall x <- bs[1..] :: x in bs;
  }

  lemma {:induction false} FirstOfStyle(bs: seq<Block>, style: Style, at: nat)
    requires bs != []
    ensures var next := at + |Printed(bs[0])|;
            && InOrder(bs, at) == [MatchAt(bs[0], at)] + InOrder(bs[1..], next)
            && OfStyle(bs, style, at)
               == (if bs[0].style == style then [MatchAt(bs[0], at)] else []) + OfStyle(bs[1..], style, next)
  {
    hide Printed, MatchAt;
  }

  lemma NoneOfStyle(style: Style, at: nat)
    ensures InOrder([], at) == [] && OfStyle([], style, at) == []
  {
  }

  lemma {:induction false} ConsPermutes<T>(m: T, all: seq<T>, a: seq<T>, b: seq<T>, a': seq<T>, b': seq<T>)
    requires multiset(all) == multiset(a) + multiset(b)
    requires (a' == [m] + a && b' == b) || (a' == a && b' == [m] + b)
    ensures multiset([m] + all) == multiset(a') + multiset(b')
  {
    assert multiset([m] + all) == multiset{m} + multiset(all);
    assert multiset([m] + a) == multiset{m} + multiset(a);
    assert multiset([m] + b) == multiset{m} + multiset(b);
  }

  lemma {:induction false} InOrderIsSorted(bs: seq<Block>, at: nat)
    ensures StrictlySorted(InOrder(bs, at)) && forall m <- InOrder(bs, at) :: at <= m.start
    decreases |bs|
  {
    if bs != [] {
      var next := at + |Printed(bs[0])|;
      assert at < next && MatchAt(bs[0], at).start == at;
      hide Printed, MatchAt;
      InOrderIsSorted(bs[1..], next);
      var rest := InOrder(bs[1..], next);
      assert forall i :: 0 <= i < |rest| ==> rest[i] in rest;
    }
  }

  lemma {:induction false} InOrderTexts(bs: seq<Block>, at: nat)
    ensures |InOrder(bs, at)| == |bs|
    ensures forall i :: 0 <= i < |bs| ==> InOrder(bs, at)[i].search == bs[i].search
                                          && InOrder(bs, at)[i].replacement == bs[i].replacement
    decreases |bs|
  {
    if bs != [] {
      InOrderTexts(bs[1..], at + |Printed(bs[0])|);
    }
  }

  lemma {:induction false} SortedIsUnique(a: seq<Match>, b: seq<Match>)
    requires SortedByStart(a) && StrictlySorted(b) && multiset(a) == multiset(b)
    ensures a == b
  {
    assert |a| == |multiset(a)| == |b|;
    if b != [] {
      assert a[0] in multiset(b) && b[0] in multiset(a);
      assert a[0] in b && b[0] in a;
      assert a[0] == b[0];
      TailPermutes(a, b);
      SortedIsUnique(a[1..], b[1..]);
    }
  }

  lemma {:induction false} TailPermutes<T>(a: seq<T>, b: seq<T>)
    requires a != [] && b != [] && a[0] == b[0] && multiset(a) == multiset(b)
    ensures multiset(a[1..]) == multiset(b[1..])
  {
    assert a == [a[0]] + a[1..] && b == [b[0]] + b[1..];
    assert multiset(a[1..]) == multiset(a) - multiset{a[0]};
    assert multiset(b[1..]) == multiset(b) - multiset{b[0]};
  }

  lemma {:induction false} DiffMatchesInPrint(bs: seq<Block>)
    requires AllClean(bs)
    ensures DiffMatches(Print(bs)) == InOrder(bs, 0)
  {
    StylesAreApart();
    assert "" + Print(bs) == Print(bs);
    AllMatchesInPrint(COMPACT, "", bs);
    AllMatchesInPrint(CANONICAL, "", bs);
    InOrderPermutes(bs, COMPACT, CANONICAL, 0);
    InOrderIsSorted(bs, 0);
    var all := OfStyle(bs, COMPACT, 0) + OfStyle(bs, CANONICAL, 0);
    SortByStartCorrect(all);
    SortedIsUnique(SortByStart(all), InOrder(bs, 0));
  }

  // ----- line endings and fences leave the document alone

  lemma {:induction false} ReplaceNoPair(s: string)
    requires forall i :: 0 <= i < |s| - 1 ==> !(s[i] == CR && s[i + 1] == LF)
    ensures ReplaceAll(s, "\r\n", "\n") == s
  {
    if |s| >= 2 {
      assert "\r\n" <= s <==> s[0] == CR && s[1] == LF;
      ReplaceNoPair(s[1..]);
    }
  }

  lemma NoPairConcat(a: string, b: string)
    requires NoPair(a) && NoPair(b)
    ensures NoPair(a + b)
  {
  }

  lemma {:induction false} NoPairOfFive(a: string, b: string, c: string, d: string, e: string)
    requires NoPair(a) && NoPair(b) && NoPair(c) && NoPair(d) && NoPair(e)
    ensures NoPair(a + b + c + d + e)
  {
    NoPairConcat(a, b);
    NoPairConcat(a + b, c);
    NoPairConcat(a + b + c, d);
    NoPairConcat(a + b + c + d, e);
  }

  lemma {:induction false} PrintedNoPair(b: Block)
    requires CR !in b.style.open && CR !in b.style.middle && CR !in b.style.close
    requires Verbatim(b.search) && Verbatim(b.replacement)
    ensures NoPair(Printed(b))
  {
    var p := PatternOf(b.style);
    NoPairOfFive(p.open, b.search, p.sep, b.replacement, p.close);
    NoPairConcat(Body(b), Newlines(b.gap + 1));
  }

  lemma CleanFacts(b: Block)
    requires Clean(b)
    ensures CR !in b.style.open && CR !in b.style.middle && CR !in b.style.close
    ensures Verbatim(b.search) && Verbatim(b.replacement)
    ensures b.style.open != "" && b.style.open[0] == '<'
  {
  }

  lemma {:induction false} PrintNoPair(bs: seq<Block>)
    requires AllClean(bs)
    ensures NoPair(Print(bs))
    ensures bs != [] ==> Print(bs) != "" && Print(bs)[|Print(bs)| - 1] == LF && Print(bs)[0] == '<'
  {
    if bs != [] {
      hide Clean, NoPair, Verbatim;
      CleanFacts(bs[0]);
      PrintedNoPair(bs[0]);
      PrintNoPair(bs[1..]);
      NoPairConcat(Printed(bs[0]), Print(bs[1..]));
      assert Printed(bs[0])[0] == bs[0].style.open[0];
    }
  }

  lemma {:induction false} NoFence(s: string)
    requires s != "" ==> s[0] != '`' && !IsSpace(s[0])
    ensures StripFences(s) == s
  {
    hide Occurs;
    assert StripLeft(s) == s;
    StripRightIsPrefix(s);
    var candidate := Strip(s);
    var firstEnd := Find(candidate, "\n", 0);
    if candidate != "" && firstEnd > 0 {
      assert candidate[..firstEnd][0] == s[0];
    }
  }

  lemma {:induction false} EditsOfMatches(bs: seq<Block>)
    requires AllClean(bs)
    ensures ToEdits(InOrder(bs, 0)) == Edits(bs)
  {
    InOrderTexts(bs, 0);
    forall i | 0 <= i < |bs|
      ensures ToEdits(InOrder(bs, 0))[i] == Edits(bs)[i]
    {
      assert Clean(bs[i]);
    }
  }

  /** Round trip: any list of clean blocks, each in its own spelling and with any number
      of empty lines after it, is read back as the same list of edits. */
  lemma {:induction false} ParseInvertsPrint(bs: seq<Block>)
    requires AllClean(bs)
    ensures ParseDiffBlocks(Print(bs)) == Edits(bs)
  {
    PrintNoPair(bs);
    ReplaceNoPair(Print(bs));
    NoFence(Print(bs));
    DiffMatchesInPrint(bs);
    EditsOfMatches(bs);
  }

  // ----- fenced responses

  function Fenced(word: string, doc: string): string {
    "```" + word + "\n" + doc + "```"
  }

  lemma {:induction false} StripFencedDocument(word: string, doc: string)
    requires forall c <- word :: IsFenceWord(c)
    requires doc != "" ==> doc[|doc| - 1] == LF
    ensures StripFences(Fenced(word, doc)) == doc
  {
    hide Find, FindLast, Strip, Occurs, IsOpeningFence, IsClosingFence, IsFenceWord;
    var t, line := Fenced(word, doc), "```" + word;
    FenceIsStripped(word, doc);
    FenceLines(word);
    FirstLineOfFence(word, doc);
    LastLineOfFence(word, doc);
    assert t[..|line|] == line;
    var closing := |t| - 4;
    assert t[closing + 1..] == "```";
    assert t[|line| + 1..closing + 1] == doc;
  }

  lemma {:induction false} FenceIsStripped(word: string, doc: string)
    ensures Strip(Fenced(word, doc)) == Fenced(word, doc) != ""
  {
    var t := Fenced(word, doc);
    assert t[0] == '`' && t[|t| - 1] == '`';
  }

  lemma {:induction false} FenceLines(word: string)
    requires forall c <- word :: IsFenceWord(c)
    ensures IsOpeningFence("```" + word) && IsClosingFence("```") && LF !in word
  {
    var line := "```" + word;
    assert line[3..] == word && "```"[3..] == "";
    assert forall i :: 0 <= i < |word| ==> IsFenceWord(word[i]);
    assert TrimBlanks(word) == word;
  }

  lemma {:induction false} FirstLineOfFence(word: string, doc: string)
    requires LF !in word
    ensures Find(Fenced(word, doc), "\n", 0) == 3 + |word|
  {
    var t, line := Fenced(word, doc), "```" + word;
    assert t[|line|] == LF;
    assert Occurs(t, "\n", |line|);
    forall j | 0 <= j < |line|
      ensures !Occurs(t, "\n", j)
    {
      OccursByChar(t, "\n", j);
      assert t[j] == line[j] && "\n"[0] == LF;
    }
  }

  lemma {:induction false} LastLineOfFence(word: string, doc: string)
    requires doc != "" ==> doc[|doc| - 1] == LF
    ensures var t := Fenced(word, doc); FindLast(t, "\n```", |t|) == |t| - 4
  {
    var t := Fenced(word, doc);
    assert t[|t| - 4..] == "\n```" by {
      assert t[|t| - 3..] == "```";
      assert t[|t| - 4] == LF;
    }
    assert Occurs(t, "\n```", |t| - 4);
  }

  /** The same round trip through a markdown fence around the whole response. */
  lemma {:induction false} ParseInvertsFencedPrint(word: string, bs: seq<Block>)
    requires AllClean(bs) && forall c <- word :: IsFenceWord(c)
    ensures ParseDiffBlocks(Fenced(word, Print(bs))) == Edits(bs)
  {
    PrintNoPair(bs);
    var doc := Print(bs);
    assert forall i :: 0 <= i < |word| ==> IsFenceWord(word[i]);
    NoPairOfFive("```", word, "\n", doc, "```");
    ReplaceNoPair(Fenced(word, doc));
    StripFencedDocument(word, doc);
    DiffMatchesInPrint(bs);
    EditsOfMatches(bs);
  }

  // ----- the shape check

  lemma NewlinesAreBlank(n: nat)
    ensures IsBlank(Newlines(n))
  {
  }

  lemma {:induction false} OutsideIsBlank(pre: string, cursor: nat, bs: seq<Block>)
    requires cursor <= |pre| && IsBlank(pre[cursor..])
    requires SpansInside(InOrder(bs, |pre|), pre + Print(bs))
    ensures forall s <- Outside(pre + Print(bs), InOrder(bs, |pre|), cursor) :: IsBlank(s)
    decreases |bs|
  {
    hide Body, IsBlank, Outside, InOrder, Print, Printed, SpansInside, MatchAt;
    var t := pre + Print(bs);
    var ms := InOrder(bs, |pre|);
    if bs == [] {
      NothingPrinted(pre);
      OutsideOfNone(t, cursor);
    } else {
      var next, end := pre + Printed(bs[0]), |pre| + |Body(bs[0])|;
      FirstPrinted(pre, bs);
      assert t == next + Print(bs[1..]);
      SpansOfRest(ms, t);
      OutsideIsBlank(next, end, bs[1..]);
      assert t[cursor..|pre|] == pre[cursor..];
      OutsideOfFirst(t, ms, cursor);
    }
  }

  lemma NothingPrinted(pre: string)
    ensures pre + Print([]) == pre && InOrder([], |pre|) == []
  {
  }

  lemma {:induction false} SpansOfRest(ms: seq<Match>, t: string)
    requires ms != [] && SpansInside(ms, t)
    ensures SpansInside(ms[1..], t)
  {
    assert forall m <- ms[1..] :: m in ms;
  }

  /** The first of several printed blocks: its span, and the empty lines after it. */
  lemma {:induction false} FirstPrinted(pre: string, bs: seq<Block>)
    requires bs != []
    ensures var next, end, ms := pre + Printed(bs[0]), |pre| + |Body(bs[0])|, InOrder(bs, |pre|);
            && pre + Print(bs) == next + Print(bs[1..])
            && ms != [] && ms[0].start == |pre| && ms[0].end == end && ms[1..] == InOrder(bs[1..], |next|)
            && end <= |next| && IsBlank(next[end..])
  {
    hide Body;
    var next, end := pre + Printed(bs[0]), |pre| + |Body(bs[0])|;
    NewlinesAreBlank(bs[0].gap + 1);
    assert next[end..] == Newlines(bs[0].gap + 1);
    assert pre + Print(bs) == next + Print(bs[1..]);
  }

  lemma OutsideOfNone(t: string, cursor: nat)
    requires cursor <= |t|
    ensures Outside(t, [], cursor) == [t[cursor..]]
  {
  }

  lemma OutsideOfFirst(t: string, ms: seq<Match>, cursor: nat)
    requires ms != [] && SpansInside(ms, t) && SpansInside(ms[1..], t) && cursor <= |t|
    requires IsBlank(Slice(t, cursor, ms[0].start)) && forall s <- Outside(t, ms[1..], ms[0].end) :: IsBlank(s)
    ensures forall s <- Outside(t, ms, cursor) :: IsBlank(s)
  {
  }

  lemma {:induction false} StripFollowingBlank(strippers: Strippers, segments: seq<string>)
    requires KeepsBlank(strippers) && forall s <- segments :: IsBlank(s)
    ensures IsBlank(StripFollowing(strippers, segments))
  {
    if segments != [] {
      StripFollowingBlank(strippers, segments[1..]);
      assert segments[0] in segments;
    }
  }

  /** A printed, non-empty list passes the shape check: it has blocks and nothing else. */
  lemma {:induction false} PrintPassesShapeCheck(bs: seq<Block>, strippers: Strippers)
    requires AllClean(bs) && bs != [] && KeepsBlank(strippers)
    ensures var t := StripFences(ReplaceAll(Print(bs), "\r\n", "\n"));
            ParseDiffBlocks(Print(bs)) != [] && IsBlank(Remainder(t, strippers))
  {
    ParseInvertsPrint(bs);
    PrintNoPair(bs);
    ReplaceNoPair(Print(bs));
    NoFence(Print(bs));
    hide *;
    DiffMatchesInPrint(bs);
    PrintOutsideIsBlank(bs);
    BlankRemainder(Print(bs), strippers);
    assert |Edits(bs)| == |bs| by { EditsLength(bs); }
  }

  lemma EditsLength(bs: seq<Block>)
    ensures |Edits(bs)| == |bs|
  {
  }

  lemma {:induction false} PrintOutsideIsBlank(bs: seq<Block>)
    requires AllClean(bs) && DiffMatches(Print(bs)) == InOrder(bs, 0)
    ensures SpansInside(DiffMatches(Print(bs)), Print(bs))
    ensures forall s <- Outside(Print(bs), DiffMatches(Print(bs)), 0) :: IsBlank(s)
  {
    hide DiffMatches, AllClean;
    DiffMatchesAreInside(Print(bs));
    assert "" + Print(bs) == Print(bs);
    OutsideIsBlank("", 0, bs);
  }

  lemma {:induction false} BlankRemainder(t: string, strippers: Strippers)
    requires KeepsBlank(strippers) && SpansInside(DiffMatches(t), t)
    requires forall s <- Outside(t, DiffMatches(t), 0) :: IsBlank(s)
    ensures IsBlank(Remainder(t, strippers))
  {
    hide DiffMatches, SpansInside;
    var outside := Outside(t, DiffMatches(t), 0);
    assert outside[0] in outside;
    assert forall s <- outside[1..] :: s in outside;
    StripFollowingBlank(strippers, outside[1..]);
  }
}
