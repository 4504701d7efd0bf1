/** Which EVOLVE-BLOCK marker error a file has (libreevolve/core/candidate.py, lines 1602-1655),
    from its lines alone: a block is open before a line when more START than END markers
    stand above it. */
module MarkerErrors {
  import opened Text
  import opened EvolveBlocks

  function CountStarts(lines: seq<string>): nat {
    if lines == [] then 0
    else CountStarts(lines[..|lines| - 1]) + if MarkerOf(lines[|lines| - 1]).StartMarker? then 1 else 0
  }

  function CountEnds(lines: seq<string>): nat {
    if lines == [] then 0
    else CountEnds(lines[..|lines| - 1]) + if MarkerOf(lines[|lines| - 1]).EndMarker? then 1 else 0
  }

  /** A block is open before line k. */
  predicate OpenBefore(lines: seq<string>, k: nat)
    requires k <= |lines|
  {
    CountStarts(lines[..k]) > CountEnds(lines[..k])
  }

  /** The name that the START marker in line k gives: its own, or a number by the blocks that
      are closed above it. */
  function NameIn(lines: seq<string>, k: nat): string
    requires k < |lines| && MarkerOf(lines[k]).StartMarker?
  {
    NameAt(MarkerOf(lines[k]).rawName, CountEnds(lines[..k]))
  }

  predicate UsedAbove(lines: seq<string>, k: nat, name: string)
    requires k <= |lines|
  {
    exists i :: 0 <= i < k && MarkerOf(lines[i]).StartMarker? && NameIn(lines, i) == name
  }

  /** What is wrong with line k, given the lines above it. */
  predicate IsMarkerError(lines: seq<string>, k: nat, e: ParseError)
    requires k < |lines|
  {
    var marker, open := MarkerOf(lines[k]), OpenBefore(lines, k);
    match e
    case NestedStart => marker.StartMarker? && open
    case InvalidName => marker.StartMarker? && !open && !ValidName(NameIn(lines, k))
    case DuplicateName =>
      marker.StartMarker? && !open && ValidName(NameIn(lines, k)) && UsedAbove(lines, k, NameIn(lines, k))
    case InvalidStartMarker => marker.BadStart?
    case OrphanEnd => marker.EndMarker? && !open
    case InvalidEndMarker => marker.BadEnd?
    case MissingEnd => false
  }

  predicate IsFine(lines: seq<string>, k: nat)
    requires k < |lines|
  {
    forall e :: !IsMarkerError(lines, k, e)
  }

  /** The reader state after k lines, as far as errors are concerned. */
  ghost predicate Agrees(lines: seq<string>, k: nat, st: State)
    requires k <= |lines|
  {
    && (st.open.Some? <==> OpenBefore(lines, k))
    && CountStarts(lines[..k]) <= CountEnds(lines[..k]) + 1 && CountEnds(lines[..k]) <= CountStarts(lines[..k])
    && |st.blocks| == CountEnds(lines[..k])
    && forall name :: UsedAbove(lines, k, name) <==>
         NameTaken(st.blocks, name) || (st.open.Some? && st.open.value.name == name)
  }

  lemma {:induction false} CountsNext(lines: seq<string>, k: nat)
    requires k < |lines|
    ensures CountStarts(lines[..k + 1]) == CountStarts(lines[..k]) + if MarkerOf(lines[k]).StartMarker? then 1 else 0
    ensures CountEnds(lines[..k + 1]) == CountEnds(lines[..k]) + if MarkerOf(lines[k]).EndMarker? then 1 else 0
  {
    assert lines[..k + 1][..k] == lines[..k];
  }

  lemma {:induction false} UsedNext(lines: seq<string>, k: nat, name: string)
    requires k < |lines|
    ensures UsedAbove(lines, k + 1, name) <==>
              UsedAbove(lines, k, name) || (MarkerOf(lines[k]).StartMarker? && NameIn(lines, k) == name)
  {
    hide NameIn, MarkerOf;
  }

  lemma {:induction false} TakenWithLast(blocks: seq<Block>, b: Block, name: string)
    ensures NameTaken(blocks + [b], name) <==> NameTaken(blocks, name) || b.name == name
  {
    assert forall x :: x in blocks + [b] <==> x in blocks || x == b;
  }

  lemma {:induction false} StepAgrees(lines: seq<string>, k: nat, st: State)
    requires k < |lines| && Agrees(lines, k, st)
    ensures match Step(st, lines[k])
            case Next(st') => IsFine(lines, k) && Agrees(lines, k + 1, st')
            case Fail(e) => IsMarkerError(lines, k, e) && forall d :: IsMarkerError(lines, k, d) ==> d == e
  {
    hide MarkerOf, NameAt, ValidName, ContentLength, CountStarts, CountEnds, NameTaken, UsedAbove;
    CountsNext(lines, k);
    forall name
      ensures UsedAbove(lines, k + 1, name) <==>
                UsedAbove(lines, k, name) || (MarkerOf(lines[k]).StartMarker? && NameIn(lines, k) == name)
    {
      UsedNext(lines, k, name);
    }
    if MarkerOf(lines[k]).EndMarker? && st.open.Some? {
      var b := Close(st, lines[k]).blocks[|st.blocks|];
      forall name ensures NameTaken(st.blocks + [b], name) <==> NameTaken(st.blocks, name) || b.name == name {
        TakenWithLast(st.blocks, b, name);
      }
    }
  }

  /** The run from line k on stops at the first line with an error. */
  lemma {:induction false} RunErrors(lines: seq<string>, k: nat, st: State)
    requires k <= |lines| && Agrees(lines, k, st)
    ensures var out := Run(lines[k..], st);
            && (out.error.None? ==>
                  (forall j :: k <= j < |lines| ==> IsFine(lines, j))
                  && (out.st.open.Some? <==> OpenBefore(lines, |lines|)))
            && (out.error.Some? ==> exists j ::
                  k <= j < |lines| && (forall i :: k <= i < j ==> IsFine(lines, i))
                  && IsMarkerError(lines, j, out.error.value))
    decreases |lines| - k
  {
    hide Step, OpenBefore, IsMarkerError, IsFine;
    if k < |lines| {
      assert lines[k..][0] == lines[k] && lines[k..][1..] == lines[k + 1..];
      StepAgrees(lines, k, st);
      if Step(st, lines[k]).Next? { RunErrors(lines, k + 1, Step(st, lines[k]).st); }
    } else {
      assert lines[k..] == [];
    }
  }

  /** The error of a file, from its lines: none when every line is fine and no block is left
      open, a missing END when only that is wrong, and otherwise the error of the first line
      that has one. */
  lemma {:induction false} ErrorMeaning(code: string)
    ensures var lines, error := SplitLines(code), Parse(code).error;
            && (error.None? <==> (forall j :: 0 <= j < |lines| ==> IsFine(lines, j)) && !OpenBefore(lines, |lines|))
            && (error == Some(MissingEnd) <==>
                  (forall j :: 0 <= j < |lines| ==> IsFine(lines, j)) && OpenBefore(lines, |lines|))
            && (error.Some? && error.value != MissingEnd ==> exists j ::
                  0 <= j < |lines| && (forall i :: 0 <= i < j ==> IsFine(lines, i))
                  && IsMarkerError(lines, j, error.value))
  {
    hide Run, SplitLines, OpenBefore, IsFine, IsMarkerError;
    var lines := SplitLines(code);
    NothingRead(lines);
    assert lines[0..] == lines;
    RunErrors(lines, 0, INITIAL);
    NoLineMissesAnEnd(lines);
    ErrorIsNotFine(lines);
  }

  lemma NothingRead(lines: seq<string>)
    ensures Agrees(lines, 0, INITIAL)
  {
  }

  lemma NoLineMissesAnEnd(lines: seq<string>)
    ensures forall j :: 0 <= j < |lines| ==> !IsMarkerError(lines, j, MissingEnd)
  {
  }

  lemma ErrorIsNotFine(lines: seq<string>)
    ensures forall j, e :: 0 <= j < |lines| && IsMarkerError(lines, j, e) ==> !IsFine(lines, j)
  {
  }

  // ----- names

  const NAME_SIGNS: set<char> := {'_', '.', ':', '-'}

  /** A block may be named by any non-empty text of letters, digits and four signs. */
  lemma {:induction false} NameMeaning(name: string)
    ensures ValidName(name) <==> name != "" && forall c <- name :: c in ALPHANUMERIC || c in NAME_SIGNS
  {
    hide ALPHANUMERIC;
    forall c: char ensures IsNameChar(c) <==> c in ALPHANUMERIC || c in NAME_SIGNS {
      AlphanumericMeaning(c);
    }
  }

  /** A START line with a valid name is a START marker with that name. */
  lemma {:induction false} NameReadsBack(name: string)
    requires ValidName(name)
    ensures MarkerOf(START + " " + name + "\n") == StartMarker(name)
  {
    hide START, ValidName, IsNameChar, IsSpace, Strip, MarkerOfText;
    NameIsVisible(name);
    StartIsVisible();
    var text := START + (" " + name);
    Ends(START, " " + name);
    LineEndIsBlank();
    StripOfMiddle("", text, "\n");
    StripOfMiddle(" ", name, "");
    ReadsAsStart(" " + name);
    assert "" + text + "\n" == START + " " + name + "\n";
    assert " " + name + "" == " " + name;
  }

  lemma {:induction false} ReadsAsStart(rest: string)
    requires rest != "" && rest[0] == ' '
    ensures MarkerOfText(START + rest) == StartMarker(Strip(rest))
  {
    hide START, Strip;
    Ends(START, rest);
  }

  lemma {:induction false} Ends(front: string, rest: string)
    ensures front <= front + rest && (front + rest)[|front|..] == rest
    ensures front != "" ==> (front + rest)[0] == front[0]
    ensures rest != "" ==>
              (front + rest)[|front|] == rest[0] && (front + rest)[|front + rest| - 1] == rest[|rest| - 1]
  {
  }

  lemma StartIsVisible()
    ensures START != "" && !IsSpace(START[0])
  {
  }

  lemma LineEndIsBlank()
    ensures IsBlank("") && IsBlank(" ") && IsBlank("\n")
  {
  }

  lemma {:induction false} NameIsVisible(name: string)
    requires ValidName(name)
    ensures name != "" && !IsSpace(name[0]) && !IsSpace(name[|name| - 1])
  {
    assert name[0] in name && name[|name| - 1] in name;
  }

  /** Stripping removes white space around a text that neither starts nor ends with it. */
  lemma {:induction false} StripOfMiddle(a: string, t: string, b: string)
    requires IsBlank(a) && IsBlank(b) && t != "" && !IsSpace(t[0]) && !IsSpace(t[|t| - 1])
    ensures Strip(a + t + b) == t
  {
    StripLeftOf(a, t + b);
    assert a + (t + b) == a + t + b;
    StripRightOf(t, b);
  }

  lemma {:induction false} StripLeftOf(a: string, t: string)
    requires IsBlank(a) && t != "" && !IsSpace(t[0])
    ensures StripLeft(a + t) == t
  {
    if a == "" {
      assert a + t == t;
    } else {
      StripLeftOf(a[1..], t);
      assert (a + t)[1..] == a[1..] + t;
    }
  }

  lemma {:induction false} StripRightOf(t: string, b: string)
    requires IsBlank(b) && t != "" && !IsSpace(t[|t| - 1])
    ensures StripRight(t + b) == t
  {
    if b == "" {
      assert t + b == t;
    } else {
      StripRightOf(t, b[..|b| - 1]);
      assert (t + b)[..|t + b| - 1] == t + b[..|b| - 1];
    }
  }

  // ----- numbers in names

  function DigitValue(c: char): nat {
    if '0' <= c <= '9' then (c - '0') as int else 0
  }

  function ValueOf(s: string): nat {
    if s == "" then 0 else 10 * ValueOf(s[..|s| - 1]) + DigitValue(s[|s| - 1])
  }

  /** The number in the name of an unnamed block is written in decimal, without leading zeros. */
  lemma {:induction false} DigitsMeaning(n: nat)
    ensures ValueOf(Digits(n)) == n
    ensures Digits(n) != "" && (forall c <- Digits(n) :: '0' <= c <= '9') && (Digits(n)[0] == '0' <==> n == 0)
  {
    assert forall d :: 0 <= d < 10 ==> "0123456789"[d] == '0' + d as char;
    if n >= 10 {
      DigitsMeaning(n / 10);
      var d := "0123456789"[n % 10];
      assert Digits(n) == Digits(n / 10) + [d];
      assert Digits(n)[..|Digits(n)| - 1] == Digits(n / 10);
    } else {
      assert Digits(n)[..0] == "";
    }
  }
}
