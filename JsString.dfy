/** The JavaScript string built-ins the core relies on, over `seq<char>`:
    `toLowerCase`/`toUpperCase` (ASCII letters only), `includes`,
    `localeCompare` (as the lexicographic order on character codes),
    `trim` and `split` on a one-character separator. */
module JsString {

  // ---------------------------------------------------------------------
  // Case mapping

  function LowerChar(c: char): char {
    if 'A' <= c <= 'Z' then (c as int + 32) as char else c
  }

  function UpperChar(c: char): char {
    if 'a' <= c <= 'z' then (c as int - 32) as char else c
  }

  /** `s.toLowerCase()`, restricted to ASCII letters. */
  function ToLower(s: string): (r: string)
    ensures |r| == |s|
    ensures forall i :: 0 <= i < |s| ==> r[i] == LowerChar(s[i])
  {
    seq(|s|, i requires 0 <= i < |s| => LowerChar(s[i]))
  }

  /** `s.toUpperCase()`, restricted to ASCII letters. */
  function ToUpper(s: string): (r: string)
    ensures |r| == |s|
    ensures forall i :: 0 <= i < |s| ==> r[i] == UpperChar(s[i])
  {
    seq(|s|, i requires 0 <= i < |s| => UpperChar(s[i]))
  }

  /** Lower-casing twice is lower-casing once. */
  lemma ToLowerIdempotent(s: string)
    ensures ToLower(ToLower(s)) == ToLower(s)
  {
    assert forall i :: 0 <= i < |s| ==> LowerChar(LowerChar(s[i])) == LowerChar(s[i]);
  }

  // ---------------------------------------------------------------------
  // Substring search

  /** `q` occurs in `s` starting at index `i`. */
  predicate OccursAt(s: string, q: string, i: int) {
    0 <= i && i + |q| <= |s| && s[i..i + |q|] == q
  }

  /** `s.includes(q)`: some suffix of `s` starts with `q`. */
  function Includes(s: string, q: string): (r: bool)
    ensures q == [] ==> r
    ensures r ==> |q| <= |s|
  {
    if q <= s then true
    else if s == [] then false
    else Includes(s[1..], q)
  }

  /** `Includes` holds exactly when `q` occurs at some index of `s`. */
  lemma {:induction false} IncludesIff(s: string, q: string)
    ensures Includes(s, q) <==> exists i :: OccursAt(s, q, i)
  {
    if q <= s {
      assert s[0..|q|] == q;
      assert OccursAt(s, q, 0);
    } else if s != [] {
      IncludesIff(s[1..], q);
      forall i | OccursAt(s[1..], q, i) ensures OccursAt(s, q, i + 1) {
        assert s[1..][i..i + |q|] == s[i + 1..i + 1 + |q|];
      }
      forall i | OccursAt(s, q, i) ensures OccursAt(s[1..], q, i - 1) {
        if i == 0 {
          assert false;
        }
        assert s[1..][i - 1..i - 1 + |q|] == s[i..i + |q|];
      }
    }
  }

  // ---------------------------------------------------------------------
  // Ordering

  /** `x.localeCompare(y)`, abstracted to the lexicographic order on
      character codes: -1 when `x` sorts first, 1 when `y` does, 0 when equal. */
  function LocaleCompare(x: string, y: string): (r: int)
    ensures -1 <= r <= 1
    ensures r == 0 <==> x == y
  {
    if x == [] && y == [] then 0
    else if x == [] then -1
    else if y == [] then 1
    else if x[0] < y[0] then -1
    else if y[0] < x[0] then 1
    else
      var r := LocaleCompare(x[1..], y[1..]);
      assert r == 0 ==> x == [x[0]] + x[1..] == [y[0]] + y[1..] == y;
      r
  }

  /** Swapping the operands negates the comparison. */
  lemma {:induction false} LocaleCompareAntisymmetric(x: string, y: string)
    ensures LocaleCompare(y, x) == -LocaleCompare(x, y)
  {
    if x != [] && y != [] && x[0] == y[0] {
      LocaleCompareAntisymmetric(x[1..], y[1..]);
    }
  }

  /** "Sorts no later than" is transitive. */
  lemma {:induction false} LocaleCompareTransitive(x: string, y: string, z: string)
    requires LocaleCompare(x, y) <= 0 && LocaleCompare(y, z) <= 0
    ensures LocaleCompare(x, z) <= 0
  {
    if x != [] && y != [] && z != [] && x[0] == y[0] == z[0] {
      LocaleCompareTransitive(x[1..], y[1..], z[1..]);
    }
  }

  // ---------------------------------------------------------------------
  // Trimming

  /** The characters `String.prototype.trim` removes: the ECMAScript
      WhiteSpace and LineTerminator code points. */
  const WhitespaceChars: string :=
    " \t\n\r\U{000B}\U{000C}\U{00A0}\U{1680}"
    + "\U{2000}\U{2001}\U{2002}\U{2003}\U{2004}\U{2005}\U{2006}\U{2007}\U{2008}\U{2009}\U{200A}"
    + "\U{2028}\U{2029}\U{202F}\U{205F}\U{3000}\U{FEFF}"

  /** `c` is one of `chars`. */
  predicate OneOf(c: char, chars: string) {
    chars != [] && (c == chars[0] || OneOf(c, chars[1..]))
  }

  predicate IsWhitespace(c: char) {
    OneOf(c, WhitespaceChars)
  }

  /** Every character of `s` at an index in `[lo, hi)` is whitespace. */
  predicate WhitespaceBetween(s: string, lo: int, hi: int) {
    forall k :: lo <= k < hi && 0 <= k < |s| ==> IsWhitespace(s[k])
  }

  predicate AllWhitespace(s: string) {
    WhitespaceBetween(s, 0, |s|)
  }

  /** The number of whitespace characters `s` starts with. */
  function LeadingWhitespace(s: string): (n: nat)
    ensures n <= |s|
  {
    if s == [] || !IsWhitespace(s[0]) then 0 else 1 + LeadingWhitespace(s[1..])
  }

  /** The number of whitespace characters `s` ends with. */
  function TrailingWhitespace(s: string): (n: nat)
    ensures n <= |s|
  {
    if s == [] || !IsWhitespace(s[|s| - 1]) then 0 else 1 + TrailingWhitespace(s[..|s| - 1])
  }

  /** The leading count covers whitespace only and stops at the first other character. */
  lemma {:induction false} LeadingSpec(s: string)
    ensures var n := LeadingWhitespace(s);
            WhitespaceBetween(s, 0, n) && (n < |s| ==> !IsWhitespace(s[n]))
  {
    if s != [] && IsWhitespace(s[0]) {
      LeadingSpec(s[1..]);
      var m := LeadingWhitespace(s[1..]);
      assert forall k :: 0 < k <= m ==> s[k] == s[1..][k - 1];
    }
  }

  /** The trailing count covers whitespace only and stops at the last other character. */
  lemma {:induction false} TrailingSpec(s: string)
    ensures var n := TrailingWhitespace(s);
            WhitespaceBetween(s, |s| - n, |s|) && (n < |s| ==> !IsWhitespace(s[|s| - n - 1]))
  {
    if s != [] && IsWhitespace(s[|s| - 1]) {
      TrailingSpec(s[..|s| - 1]);
      var m := TrailingWhitespace(s[..|s| - 1]);
      assert forall k :: |s| - 1 - m <= k < |s| - 1 ==> s[k] == s[..|s| - 1][k];
    }
  }

  /** `r` is `s[i..]` cut to its length, with only whitespace around it. */
  predicate TrimmedAt(s: string, r: string, i: int) {
    0 <= i <= i + |r| <= |s| && r == s[i..i + |r|]
    && WhitespaceBetween(s, 0, i) && WhitespaceBetween(s, i + |r|, |s|)
  }

  /** `s.trim()`: `s` without its leading and trailing whitespace. */
  function Trim(s: string): string {
    var i := LeadingWhitespace(s);
    if i == |s| then []
    else
      LeadingSpec(s);
      TrailingSpec(s);
      s[i..|s| - TrailingWhitespace(s)]
  }

  /** The trimmed string is a piece of `s` with only whitespace around it,
      and it neither starts nor ends with whitespace. */
  lemma TrimSpec(s: string)
    ensures exists i :: TrimmedAt(s, Trim(s), i)
    ensures var r := Trim(s); r != [] ==> !IsWhitespace(r[0]) && !IsWhitespace(r[|r| - 1])
  {
    LeadingSpec(s);
    TrailingSpec(s);
    var i, n := LeadingWhitespace(s), TrailingWhitespace(s);
    if i == |s| {
      assert TrimmedAt(s, [], i);
      assert Trim(s) == [];
    } else {
      assert !IsWhitespace(s[i]);
      assert i < |s| - n;
      var r := s[i..|s| - n];
      assert TrimmedAt(s, r, i);
      assert r[0] == s[i] && r[|r| - 1] == s[|s| - n - 1];
      assert n < |s| && Trim(s) == r;
    }
  }

  /** Trimming leaves nothing exactly when the string is all whitespace. */
  lemma TrimEmpty(s: string)
    ensures Trim(s) == [] <==> AllWhitespace(s)
  {
    LeadingSpec(s);
    TrailingSpec(s);
    var i := LeadingWhitespace(s);
    if i < |s| {
      assert !IsWhitespace(s[i]);
      assert |s| - TrailingWhitespace(s) > i;
    }
  }

  /** Whitespace around a string does not survive trimming. */
  lemma TrimIgnoresPadding(p: string, s: string, q: string)
    requires AllWhitespace(p) && AllWhitespace(q)
    ensures Trim(p + s + q) == Trim(s)
  {
    PaddingCounts(p, s, q);
    var i, n := LeadingWhitespace(s), TrailingWhitespace(s);
    if i < |s| {
      TrimBetween(p + s + q, |p| + i, |p| + |s| - n);
      TrimBetween(s, i, |s| - n);
      SliceOfPadded(p, s, q, i, |s| - n);
    }
  }

  /** The trimmed string lies between the leading and the trailing whitespace. */
  lemma TrimBetween(s: string, a: int, b: int)
    requires 0 <= a < b <= |s|
    requires LeadingWhitespace(s) == a && |s| - TrailingWhitespace(s) == b
    ensures Trim(s) == s[a..b]
  {
  }

  /** A slice of `s` is the same slice of `s` with text around it, shifted. */
  lemma SliceOfPadded(p: string, s: string, q: string, a: int, b: int)
    requires 0 <= a <= b <= |s|
    ensures (p + s + q)[|p| + a..|p| + b] == s[a..b]
  {
    var w := p + s + q;
    assert forall k :: a <= k < b ==> w[|p| + k] == s[k];
  }

  /** How whitespace around `s` changes its leading and trailing counts. */
  lemma PaddingCounts(p: string, s: string, q: string)
    requires AllWhitespace(p) && AllWhitespace(q)
    ensures var w, i, n := p + s + q, LeadingWhitespace(s), TrailingWhitespace(s);
            && (i == |s| ==> LeadingWhitespace(w) == |w|)
            && (i < |s| ==> i < |s| - n && LeadingWhitespace(w) == |p| + i
                             && TrailingWhitespace(w) == n + |q|)
  {
    var w := p + s + q;
    assert w == p + (s + q) && w == (p + s) + q;
    LeadingPadding(p, s + q);
    LeadingAppend(s, q);
    var i := LeadingWhitespace(s);
    if i < |s| {
      LeadingSpec(s);
      TrailingSpec(s);
      assert !IsWhitespace(s[i]);
      TrailingPadding(p, s);
      TrailingAppend(p + s, q);
    }
  }

  /** Leading whitespace before `s` adds to the count of `s`'s own. */
  lemma {:induction false} LeadingPadding(p: string, s: string)
    requires AllWhitespace(p)
    ensures LeadingWhitespace(p + s) == |p| + LeadingWhitespace(s)
  {
    if p != [] {
      var ps := p + s;
      assert ps[0] == p[0] && ps[1..] == p[1..] + s;
      LeadingPadding(p[1..], s);
    } else {
      assert p + s == s;
    }
  }

  /** Whitespace after `s` is counted as leading only when `s` is blank. */
  lemma {:induction false} LeadingAppend(s: string, q: string)
    requires AllWhitespace(q)
    ensures LeadingWhitespace(s + q) ==
            if LeadingWhitespace(s) == |s| then |s| + |q| else LeadingWhitespace(s)
  {
    var sq := s + q;
    if s == [] {
      assert sq == q + [];
      LeadingPadding(q, []);
    } else {
      assert sq[0] == s[0];
      if IsWhitespace(s[0]) {
        assert sq[1..] == s[1..] + q;
        LeadingAppend(s[1..], q);
      }
    }
  }

  /** Trailing whitespace after `s` adds to the count of `s`'s own. */
  lemma {:induction false} TrailingAppend(s: string, q: string)
    requires AllWhitespace(q)
    ensures TrailingWhitespace(s + q) == TrailingWhitespace(s) + |q|
  {
    if q != [] {
      var sq := s + q;
      assert sq[|sq| - 1] == q[|q| - 1] && sq[..|sq| - 1] == s + q[..|q| - 1];
      TrailingAppend(s, q[..|q| - 1]);
    } else {
      assert s + q == s;
    }
  }

  /** Whitespace before `s` is counted as trailing only when `s` is blank. */
  lemma {:induction false} TrailingPadding(p: string, s: string)
    requires AllWhitespace(p) && TrailingWhitespace(s) < |s|
    ensures TrailingWhitespace(p + s) == TrailingWhitespace(s)
  {
    var ps := p + s;
    assert ps[|ps| - 1] == s[|s| - 1];
    if IsWhitespace(s[|s| - 1]) {
      assert ps[..|ps| - 1] == p + s[..|s| - 1];
      TrailingPadding(p, s[..|s| - 1]);
    }
  }

  // ---------------------------------------------------------------------
  // Splitting

  /** `s.split(sep)` for a one-character separator: the pieces between
      separators, empty pieces included; never an empty list. */
  function Split(s: string, sep: char): (r: seq<string>)
    ensures |r| >= 1
    ensures forall k :: 0 <= k < |r| ==> sep !in r[k] && |r[k]| <= |s|
  {
    if s == [] then [[]]
    else
      var rest := Split(s[1..], sep);
      if s[0] == sep then [[]] + rest
      else [[s[0]] + rest[0]] + rest[1..]
  }

  /** `pieces.join(sep)`. */
  function Join(pieces: seq<string>, sep: char): string
    requires |pieces| >= 1
  {
    if |pieces| == 1 then pieces[0]
    else pieces[0] + [sep] + Join(pieces[1..], sep)
  }

  /** Joining the pieces of a split with the separator gives back the string. */
  lemma {:induction false} JoinSplit(s: string, sep: char)
    ensures Join(Split(s, sep), sep) == s
  {
    if s != [] {
      var rest := Split(s[1..], sep);
      JoinSplit(s[1..], sep);
      if s[0] == sep {
        assert Split(s, sep)[1..] == rest;
      } else {
        var r := Split(s, sep);
        if |rest| == 1 {
          assert r == [[s[0]] + rest[0]];
        } else {
          assert r[1..] == rest[1..];
          assert Join(r, sep) == [s[0]] + rest[0] + [sep] + Join(rest[1..], sep);
        }
      }
    }
  }

  /** There is more than one piece exactly when the separator occurs. */
  lemma {:induction false} SplitSingle(s: string, sep: char)
    ensures |Split(s, sep)| == 1 <==> sep !in s
    ensures sep !in s ==> Split(s, sep) == [s]
  {
    if s != [] {
      SplitSingle(s[1..], sep);
      assert s == [s[0]] + s[1..];
    }
  }

  /** The first piece is what precedes the first separator. */
  lemma {:induction false} SplitFirst(s: string, sep: char)
    ensures Split(s, sep)[0] <= s
    ensures |Split(s, sep)[0]| < |s| ==> s[|Split(s, sep)[0]|] == sep
  {
    if s != [] {
      SplitFirst(s[1..], sep);
    }
  }

  /** `last` is a suffix of `s`: the whole of `s` when `whole` holds, and
      otherwise what follows an occurrence of `sep`. */
  predicate SuffixAfter(s: string, last: string, sep: char, whole: bool) {
    && |last| <= |s| && last == s[|s| - |last|..]
    && (whole ==> last == s)
    && (!whole ==> |last| < |s| && s[|s| - |last| - 1] == sep)
  }

  /** The last piece is what follows the last separator. */
  lemma {:induction false} SplitLast(s: string, sep: char)
    ensures var r := Split(s, sep); SuffixAfter(s, r[|r| - 1], sep, |r| == 1)
  {
    if s != [] {
      var r, rest := Split(s, sep), Split(s[1..], sep);
      var last := rest[|rest| - 1];
      SplitLast(s[1..], sep);
      SplitLastStep(s, sep);
      assert s[1..][|s[1..]| - |last|..] == s[|s| - |last|..];
      if |r| == 1 {
        assert s == [s[0]] + s[1..];
      }
    }
  }

  /** How one more leading character changes the count and the last piece. */
  lemma SplitLastStep(s: string, sep: char)
    requires s != []
    ensures var r, rest := Split(s, sep), Split(s[1..], sep);
            && (|r| == 1 <==> s[0] != sep && |rest| == 1)
            && (|r| == 1 ==> r[0] == [s[0]] + rest[0])
            && (|r| > 1 ==> r[|r| - 1] == rest[|rest| - 1])
  {
  }
}
