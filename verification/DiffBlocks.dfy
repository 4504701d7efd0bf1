/** Parsing of SEARCH/REPLACE responses (libreevolve/core/diff.py): the two block
    spellings, markdown fences, the check that nothing else was sent, and the round
    trip from printed blocks back to the list of edits. */
module DiffBlocks {
  import opened Text
  import opened LineEndings
  import opened Sorting

  /** A spelling of the three delimiter lines around the two texts of a block. */
  datatype Style = Style(open: string, middle: string, close: string)

  const COMPACT := Style("<<<SEARCH", "===", ">>>REPLACE")
  const CANONICAL := Style("<<<<<<< SEARCH", "=======", ">>>>>>> REPLACE")

  datatype Match = Match(start: nat, end: nat, search: string, replacement: string)

  // ----- the two patterns

  /** A pattern `open (.*?) sep (.*?) close` in which the groups match anything. */
  datatype Pattern = Pattern(open: string, sep: string, close: string)

  function PatternOf(style: Style): (p: Pattern)
    ensures p.open != "" && p.sep != "" && p.close != ""
  {
    Pattern(style.open + "\n", "\n" + style.middle + "\n", "\n" + style.close)
  }

  /** A way for the pattern to match: the separator starts at `sep`, the closing
      delimiter at `close`. */
  predicate Matches(p: Pattern, t: string, start: int, sep: int, close: int) {
    && Occurs(t, p.open, start)
    && start + |p.open| <= sep && Occurs(t, p.sep, sep)
    && sep + |p.sep| <= close && Occurs(t, p.close, close)
  }

  /** First match at or after `from`, both groups lazy: three plain searches. */
  function FirstMatch(p: Pattern, t: string, from: nat): (m: Option<Match>)
    requires from <= |t|
    ensures m.Some? ==> from <= m.value.start && m.value.start + |p.open| + |p.close| <= m.value.end <= |t|
  {
    var i := Find(t, p.open, from);
    if i < 0 then None
    else
      var j := Find(t, p.sep, i + |p.open|);
      if j < 0 then None
      else
        var k := Find(t, p.close, j + |p.sep|);
        if k < 0 then None
        else Some(Match(i, k + |p.close|, t[i + |p.open|..j], t[j + |p.sep|..k]))
  }

  /** The three searches implement the lazy regular expression: no match exactly when
      the pattern matches nowhere, and otherwise the leftmost start, then the shortest
      first group, then the shortest second group. */
  lemma {:induction false} FirstMatchIsLazyAndLeftmost(p: Pattern, t: string, from: nat)
    requires from <= |t|
    ensures FirstMatch(p, t, from).None? <==> !exists i, j, k :: from <= i && Matches(p, t, i, j, k)
    ensures var m := FirstMatch(p, t, from);
            m.Some? ==>
              var sep, close := m.value.start + |p.open| + |m.value.search|, m.value.end - |p.close|;
              && Matches(p, t, m.value.start, sep, close)
              && (forall i, j, k :: from <= i && Matches(p, t, i, j, k) ==> m.value.start <= i)
              && (forall j, k :: Matches(p, t, m.value.start, j, k) ==> sep <= j)
              && (forall k :: Matches(p, t, m.value.start, sep, k) ==> close <= k)
  {
    hide Occurs;
    var i := Find(t, p.open, from);
    if i >= 0 {
      var j := Find(t, p.sep, i + |p.open|);
      if j >= 0 {
        var k := Find(t, p.close, j + |p.sep|);
        assert k >= 0 ==> Matches(p, t, i, j, k);
      }
    }
  }

  /** `pattern.finditer`: matches from left to right, each search resuming at the end
      of the previous match. */
  function AllMatches(p: Pattern, t: string, from: nat): seq<Match>
    requires from <= |t| && p.open != ""
    decreases |t| - from
  {
    var m := FirstMatch(p, t, from);
    if m.None? then [] else [m.value] + AllMatches(p, t, m.value.end)
  }

  predicate SortedByStart(ms: seq<Match>) {
    forall i, j :: 0 <= i < j < |ms| ==> ms[i].start <= ms[j].start
  }

  predicate StartsNoLater(a: Match, b: Match) {
    a.start <= b.start
  }

  /** `sorted(..., key=start)`. */
  function SortByStart(ms: seq<Match>): seq<Match> {
    Sort(ms, StartsNoLater)
  }

  lemma {:induction false} SortByStartCorrect(ms: seq<Match>)
    ensures multiset(SortByStart(ms)) == multiset(ms) && SortedByStart(SortByStart(ms))
  {
    hide Sort;
    SortPermutes(ms, StartsNoLater);
    SortSorts(ms, StartsNoLater);
  }

  function DiffMatches(t: string): seq<Match> {
    SortByStart(AllMatches(PatternOf(COMPACT), t, 0) + AllMatches(PatternOf(CANONICAL), t, 0))
  }

  function TrimNewlines(s: string): string {
    if s != "" && s[|s| - 1] == LF then TrimNewlines(s[..|s| - 1]) else s
  }

  function ToEdits(ms: seq<Match>): seq<Edit> {
    seq(|ms|, i requires 0 <= i < |ms| => Edit(TrimNewlines(ms[i].search), TrimNewlines(ms[i].replacement)))
  }

  // ----- fences

  /** `h.rfind(n)`. */
  function FindLast(h: string, n: string, from: nat): (r: int)
    requires from <= |h|
    ensures r == -1 || (0 <= r <= from && Occurs(h, n, r))
    ensures forall j :: r < j <= from ==> !Occurs(h, n, j)
  {
    if Occurs(h, n, from) then from
    else if from == 0 then -1
    else FindLast(h, n, from - 1)
  }

  predicate IsFenceWord(c: char) {
    'A' <= c <= 'Z' || 'a' <= c <= 'z' || '0' <= c <= '9' || c in "_.:+-"
  }

  function TrimBlanks(s: string): string {
    if s != "" && (s[|s| - 1] == ' ' || s[|s| - 1] == '\t') then TrimBlanks(s[..|s| - 1]) else s
  }

  predicate IsOpeningFence(line: string) {
    "```" <= line && forall c <- TrimBlanks(line[3..]) :: IsFenceWord(c)
  }

  predicate IsClosingFence(line: string) {
    "```" <= line && TrimBlanks(line[3..]) == ""
  }

  /** `_strip_fences`: removes one markdown fence that wraps the whole response. */
  function StripFences(text: string): string {
    var candidate := Strip(text);
    if candidate == "" then text
    else
      var firstEnd := Find(candidate, "\n", 0);
      if firstEnd < 0 || !IsOpeningFence(candidate[..firstEnd]) then text
      else
        var closing := FindLast(candidate, "\n```", |candidate|);
        if closing < 0 || !IsClosingFence(candidate[closing + 1..]) then text
        else
          assert Occurs(candidate, "\n", closing) by {
            OccursByChar(candidate, "\n```", closing);
            OccursByChar(candidate, "\n", closing);
            assert "\n```"[0] == "\n"[0];
          }
          candidate[firstEnd + 1..closing + 1]
  }

  /** `parse_diff_blocks`. */
  function ParseDiffBlocks(text: string): seq<Edit> {
    ToEdits(DiffMatches(StripFences(ReplaceAll(text, "\r\n", "\n"))))
  }

  // ----- the check that nothing was left over

  /** The proposal-metadata strippers applied to the text before the first block and
      to the text after each block. */
  datatype Strippers = Strippers(leading: string -> string, following: string -> string)

  /** Neither stripper makes visible text out of white space. */
  ghost predicate KeepsBlank(s: Strippers) {
    forall t :: IsBlank(t) ==> IsBlank(s.leading(t)) && IsBlank(s.following(t))
  }

  function Slice(t: string, from: nat, to: nat): string
    requires to <= |t|
  {
    if from <= to then t[from..to] else ""
  }

  predicate SpansInside(spans: seq<Match>, t: string) {
    forall m <- spans :: m.start <= |t| && m.end <= |t|
  }

  /** The pieces of `t` between consecutive spans, from `cursor` on. */
  function Outside(t: string, spans: seq<Match>, cursor: nat): (r: seq<string>)
    requires cursor <= |t| && SpansInside(spans, t)
    ensures |r| == |spans| + 1
  {
    if spans == [] then [t[cursor..]]
    else [Slice(t, cursor, spans[0].start)] + Outside(t, spans[1..], spans[0].end)
  }

  function StripFollowing(s: Strippers, segments: seq<string>): string {
    if segments == [] then "" else s.following(segments[0]) + StripFollowing(s, segments[1..])
  }

  lemma {:induction false} OutsideExtends(t: string, spans: seq<Match>, m: Match, cursor: nat)
    requires cursor <= |t| && SpansInside(spans + [m], t)
    ensures SpansInside(spans, t)
    ensures var at := if spans == [] then cursor else spans[|spans| - 1].end;
            Outside(t, spans + [m], cursor)
            == Outside(t, spans, cursor)[..|spans|] + [Slice(t, at, m.start), t[m.end..]]
  {
    assert forall x <- spans :: x in spans + [m];
    if spans == [] {
      assert (spans + [m])[1..] == [];
    } else {
      assert (spans + [m])[1..] == spans[1..] + [m];
      OutsideExtends(t, spans[1..], m, spans[0].end);
    }
  }

  lemma {:induction false} MatchesAreInside(p: Pattern, t: string, from: nat)
    requires from <= |t| && p.open != ""
    ensures SpansInside(AllMatches(p, t, from), t)
    decreases |t| - from
  {
    var m := FirstMatch(p, t, from);
    if m.Some? { MatchesAreInside(p, t, m.value.end); }
  }

  lemma {:induction false} DiffMatchesAreInside(t: string)
    ensures SpansInside(DiffMatches(t), t)
  {
    MatchesAreInside(PatternOf(COMPACT), t, 0);
    MatchesAreInside(PatternOf(CANONICAL), t, 0);
    var all := AllMatches(PatternOf(COMPACT), t, 0) + AllMatches(PatternOf(CANONICAL), t, 0);
    SortByStartCorrect(all);
    forall m | m in DiffMatches(t)
      ensures m in all
    {
      assert m in multiset(DiffMatches(t));
    }
  }

  /** What remains of a response once blocks and proposal metadata are taken out. */
  function Remainder(t: string, strippers: Strippers): string {
    DiffMatchesAreInside(t);
    var outside := Outside(t, DiffMatches(t), 0);
    strippers.leading(outside[0]) + StripFollowing(strippers, outside[1..])
  }

  /** `_validate_consumed_diff_text`, with its cursor loop. */
  method ValidateConsumedDiffText(text: string, strippers: Strippers) returns (error: Option<DiffError>)
    ensures var t := StripFences(ReplaceAll(text, "\r\n", "\n"));
            error == if DiffMatches(t) == [] || IsBlank(Remainder(t, strippers)) then None else Some(UnconsumedText)
  {
    var t := StripFences(ReplaceAll(text, "\r\n", "\n"));
    var spans := DiffMatches(t);
    DiffMatchesAreInside(t);
    if spans == [] {
      return None;
    }
    var outside := OutsideLoop(t, spans);
    var remainder := strippers.leading(outside[0]) + StripFollowing(strippers, outside[1..]);
    return if IsBlank(remainder) then None else Some(UnconsumedText);
  }

  /** The cursor loop that collects the text around the spans. */
  method OutsideLoop(t: string, spans: seq<Match>) returns (outside: seq<string>)
    requires SpansInside(spans, t)
    ensures outside == Outside(t, spans, 0)
  {
    outside := [];
    var cursor := 0;
    for i := 0 to |spans|
      invariant |outside| == i && cursor <= |t|
      invariant cursor == if i == 0 then 0 else spans[i - 1].end
      invariant SpansInside(spans[..i], t)
      invariant outside + [t[cursor..]] == Outside(t, spans[..i], 0)
    {
      assert spans[i] in spans;
      assert spans[..i + 1] == spans[..i] + [spans[i]];
      OutsideExtends(t, spans[..i], spans[i], 0);
      outside := outside + [Slice(t, cursor, spans[i].start)];
      cursor := spans[i].end;
    }
    assert spans[..|spans|] == spans;
    outside := outside + [t[cursor..]];
  }
}
