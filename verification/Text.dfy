/** Python string operations that the mutation engine relies on, as functions on
    `seq<char>`: searching, counting, replacing, stripping and splitting into lines. */
module Text {

  datatype Option<+T> = None | Some(value: T)

  datatype Result<+T, +E> = Ok(value: T) | Err(error: E)

  const CR: char := '\r'
  const LF: char := '\n'

  /** The characters `str.strip()` removes when it is called without arguments. */
  predicate IsSpace(c: char) {
    || '\U{0009}' <= c <= '\U{000D}'
    || '\U{001C}' <= c <= '\U{0020}'
    || c == '\U{0085}' || c == '\U{00A0}' || c == '\U{1680}'
    || '\U{2000}' <= c <= '\U{200A}'
    || c == '\U{2028}' || c == '\U{2029}' || c == '\U{202F}' || c == '\U{205F}' || c == '\U{3000}'
  }

  /** `not s.strip()`: nothing but white space. */
  predicate IsBlank(s: string) {
    forall c <- s :: IsSpace(c)
  }

  function StripLeft(s: string): string {
    if s != "" && IsSpace(s[0]) then StripLeft(s[1..]) else s
  }

  function StripRight(s: string): string {
    if s != "" && IsSpace(s[|s| - 1]) then StripRight(s[..|s| - 1]) else s
  }

  lemma {:induction false} StripRightIsPrefix(s: string)
    ensures StripRight(s) <= s
  {
    if s != "" && IsSpace(s[|s| - 1]) { StripRightIsPrefix(s[..|s| - 1]); }
  }

  function Strip(s: string): string {
    StripRight(StripLeft(s))
  }

  /** `n` occurs in `h` at index `i`. */
  predicate Occurs(h: string, n: string, i: int) {
    0 <= i && i + |n| <= |h| && h[i..i + |n|] == n
  }

  lemma {:induction false} OccursByChar(h: string, n: string, i: int)
    ensures Occurs(h, n, i) <==> 0 <= i && i + |n| <= |h| && forall k :: 0 <= k < |n| ==> n[k] == h[i + k]
  {
    if 0 <= i && i + |n| <= |h| {
      var w := h[i..i + |n|];
      assert forall k :: 0 <= k < |n| ==> w[k] == h[i + k];
    }
  }

  predicate Contains(h: string, n: string) {
    exists i | 0 <= i <= |h| :: Occurs(h, n, i)
  }

  /** `h.find(n, from)`: the leftmost occurrence at or after `from`, or -1. */
  function Find(h: string, n: string, from: nat): (r: int)
    requires from <= |h|
    ensures r == -1 || from <= r
    ensures r >= 0 ==> r + |n| <= |h| && Occurs(h, n, r)
    ensures forall j :: from <= j && (r < 0 || j < r) ==> !Occurs(h, n, j)
    decreases |h| - from
  {
    if Occurs(h, n, from) then from
    else if from == |h| then -1
    else Find(h, n, from + 1)
  }

  /** Number of non-overlapping occurrences at or after `from`, taken from the left. */
  function CountFrom(h: string, n: string, from: nat): nat
    requires n != "" && from <= |h|
    decreases |h| - from
  {
    var i := Find(h, n, from);
    if i < 0 then 0 else 1 + CountFrom(h, n, i + |n|)
  }

  /** `h.count(n)`; the empty needle is found at every boundary. */
  function Count(h: string, n: string): nat {
    if n == "" then |h| + 1 else CountFrom(h, n, 0)
  }

  /** `h.replace(old, new)` for a non-empty `old`. */
  function ReplaceAll(h: string, old_: string, new_: string): string
    requires old_ != ""
  {
    if |h| < |old_| then h
    else if old_ <= h then new_ + ReplaceAll(h[|old_|..], old_, new_)
    else [h[0]] + ReplaceAll(h[1..], old_, new_)
  }

  /** What `str.count` says about occurrences: zero means none at all, two or more
      means two that do not overlap. */
  lemma {:induction false} CountMeaning(h: string, n: string)
    requires n != ""
    ensures Count(h, n) == 0 <==> !Contains(h, n)
    ensures Count(h, n) >= 2 <==> exists i, j :: Occurs(h, n, i) && Occurs(h, n, j) && i + |n| <= j
  {
    hide Find;
    var i := Find(h, n, 0);
    if i >= 0 {
      var j := Find(h, n, i + |n|);
      assert CountFrom(h, n, i + |n|) == if j < 0 then 0 else 1 + CountFrom(h, n, j + |n|);
      if j >= 0 {
        assert Occurs(h, n, i) && Occurs(h, n, j) && i + |n| <= j;
      } else {
        assert forall a, b :: Occurs(h, n, a) && a + |n| <= b ==> i <= a && !Occurs(h, n, b);
      }
    }
  }

  /** Exactly one counted match does not make the occurrence unique: "aba" is
      counted once in "ababa" although it occurs twice. */
  lemma {:induction false} OneMatchNeedNotBeUnique()
    ensures Count("ababa", "aba") == 1
    ensures Occurs("ababa", "aba", 0) && Occurs("ababa", "aba", 2)
  {
    assert "ababa"[3..] == "ba";
    assert Find("ababa", "aba", 3) == -1;
  }

  // ----- letters and digits

  const UPPER_CASE: set<char> := {
    'A', 'B', 'C', 'D', 'E', 'F', 'G', 'H', 'I', 'J', 'K', 'L', 'M',
    'N', 'O', 'P', 'Q', 'R', 'S', 'T', 'U', 'V', 'W', 'X', 'Y', 'Z'}

  const LOWER_CASE: set<char> := {
    'a', 'b', 'c', 'd', 'e', 'f', 'g', 'h', 'i', 'j', 'k', 'l', 'm',
    'n', 'o', 'p', 'q', 'r', 's', 't', 'u', 'v', 'w', 'x', 'y', 'z'}

  const DIGITS: set<char> := {'0', '1', '2', '3', '4', '5', '6', '7', '8', '9'}

  const ALPHANUMERIC := UPPER_CASE + LOWER_CASE + DIGITS

  /** Letters and digits as three ranges of characters. */
  lemma {:induction false} AlphanumericMeaning(c: char)
    ensures 'A' <= c <= 'Z' || 'a' <= c <= 'z' || '0' <= c <= '9' <==> c in ALPHANUMERIC
  {
    hide UPPER_CASE, LOWER_CASE, DIGITS;
    UpperCaseRange(c);
    LowerCaseRange(c);
    DigitRange(c);
  }

  lemma UpperCaseRange(c: char)
    ensures 'A' <= c <= 'Z' <==> c in UPPER_CASE
  {
  }

  lemma LowerCaseRange(c: char)
    ensures 'a' <= c <= 'z' <==> c in LOWER_CASE
  {
  }

  lemma DigitRange(c: char)
    ensures '0' <= c <= '9' <==> c in DIGITS
  {
  }

  // ----- the order of texts

  /** Python's order of strings. */
  predicate TextLeq(a: string, b: string) {
    a == "" || (b != "" && (a[0] < b[0] || (a[0] == b[0] && TextLeq(a[1..], b[1..]))))
  }

  lemma {:induction false} TextIsTotal(a: string, b: string)
    ensures TextLeq(a, b) || TextLeq(b, a)
    decreases |a|
  {
    if a != "" && b != "" { TextIsTotal(a[1..], b[1..]); }
  }

  lemma {:induction false} TextIsTransitive(a: string, b: string, c: string)
    requires TextLeq(a, b) && TextLeq(b, c)
    ensures TextLeq(a, c)
    decreases |a|
  {
    if a != "" && a[0] == b[0] && b[0] == c[0] { TextIsTransitive(a[1..], b[1..], c[1..]); }
  }

  lemma {:induction false} TextIsAntisymmetric(a: string, b: string)
    requires TextLeq(a, b) && TextLeq(b, a)
    ensures a == b
    decreases |a|
  {
    if a != "" {
      TextIsAntisymmetric(a[1..], b[1..]);
      assert a == [a[0]] + a[1..] && b == [b[0]] + b[1..];
    }
  }

  predicate IsFirstOf(text: string, texts: set<string>) {
    text in texts && forall t <- texts :: TextLeq(text, t)
  }

  /** `sorted(texts)[0]`. */
  function FirstOf(texts: set<string>): (first: string)
    requires texts != {}
    ensures IsFirstOf(first, texts)
  {
    FirstExists(texts);
    OnlyOneFirst(texts);
    var first :| first in texts && IsFirstOf(first, texts);
    first
  }

  lemma {:induction false} FirstExists(texts: set<string>)
    requires texts != {}
    ensures exists first :: first in texts && IsFirstOf(first, texts)
  {
    var text :| text in texts;
    var rest := texts - {text};
    TextIsTotal(text, text);
    if rest == {} {
      forall t <- texts ensures t == text { assert t == text || t in rest; }
      assert IsFirstOf(text, texts);
    } else {
      FirstExists(rest);
      var first :| first in rest && IsFirstOf(first, rest);
      TextIsTotal(text, first);
      if TextLeq(text, first) {
        forall t <- texts ensures TextLeq(text, t) {
          if t != text { TextIsTransitive(text, first, t); }
        }
        assert IsFirstOf(text, texts);
      } else {
        assert IsFirstOf(first, texts);
      }
    }
  }

  lemma {:induction false} OnlyOneFirst(texts: set<string>)
    ensures forall a, b :: IsFirstOf(a, texts) && IsFirstOf(b, texts) ==> a == b
  {
    forall a, b | IsFirstOf(a, texts) && IsFirstOf(b, texts) ensures a == b { TextIsAntisymmetric(a, b); }
  }
}
