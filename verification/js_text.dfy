/** The JavaScript string operations the components use, over Dafny strings
    (sequences of Unicode scalar values): ASCII case mapping for
    `toLowerCase`/`toUpperCase`, `trim`, `includes`, `split` and `join` on a
    one-character separator, and single-character replacement. */
module JsText {

  /** A character matched by the regular-expression class `\s` and removed by
      `trim`: the ECMAScript WhiteSpace and LineTerminator code points. */
  predicate IsWhitespace(c: char) {
    c == ' ' || c == '\t' || c == '\n' || c == '\r'
    || c as int == 0x0B || c as int == 0x0C || c as int == 0xA0
    || c as int == 0x1680 || (0x2000 <= c as int <= 0x200A)
    || c as int == 0x2028 || c as int == 0x2029 || c as int == 0x202F
    || c as int == 0x205F || c as int == 0x3000 || c as int == 0xFEFF
  }

  predicate IsAsciiUpper(c: char) { 'A' <= c <= 'Z' }

  predicate IsAsciiLower(c: char) { 'a' <= c <= 'z' }

  predicate IsDigit(c: char) { '0' <= c <= '9' }

  function LowerChar(c: char): char {
    if IsAsciiUpper(c) then (c as int + 32) as char else c
  }

  function UpperChar(c: char): char {
    if IsAsciiLower(c) then (c as int - 32) as char else c
  }

  /** `s.toLowerCase()`, restricted to ASCII letters. */
  function Lower(s: string): (r: string)
    ensures |r| == |s|
    ensures forall i :: 0 <= i < |s| ==> r[i] == LowerChar(s[i])
  {
    if s == [] then [] else [LowerChar(s[0])] + Lower(s[1..])
  }

  /** Lowercasing works character by character. */
  lemma LowerAppend(a: string, b: string)
    ensures Lower(a + b) == Lower(a) + Lower(b)
  {
  }

  /** A string without upper-case ASCII letters is its own lowercase. */
  lemma LowerNoUpper(s: string)
    requires forall i :: 0 <= i < |s| ==> !IsAsciiUpper(s[i])
    ensures Lower(s) == s
  {
  }

  /** Lowercasing never produces an upper-case ASCII letter, so it is idempotent. */
  lemma LowerIdempotent(s: string)
    ensures forall i :: 0 <= i < |s| ==> !IsAsciiUpper(Lower(s)[i])
    ensures Lower(Lower(s)) == Lower(s)
  {
    LowerNoUpper(Lower(s));
  }

  /** Every character of `s` is whitespace: `!s.trim()` holds. */
  predicate IsBlank(s: string) {
    forall i :: 0 <= i < |s| ==> IsWhitespace(s[i])
  }

  /** The number of whitespace characters at the start of `s`. */
  function LeadingBlank(s: string): (n: nat)
    ensures n <= |s|
    ensures forall i :: 0 <= i < n ==> IsWhitespace(s[i])
    ensures n < |s| ==> !IsWhitespace(s[n])
  {
    if s != [] && IsWhitespace(s[0]) then
      var m := LeadingBlank(s[1..]);
      assert forall i :: 1 <= i < 1 + m ==> s[i] == s[1..][i - 1];
      1 + m
    else 0
  }

  /** The number of whitespace characters at the end of `s`. */
  function TrailingBlank(s: string): (n: nat)
    ensures n <= |s|
    ensures forall i :: |s| - n <= i < |s| ==> IsWhitespace(s[i])
    ensures n < |s| ==> !IsWhitespace(s[|s| - n - 1])
  {
    if s != [] && IsWhitespace(s[|s| - 1]) then
      var m := TrailingBlank(s[..|s| - 1]);
      assert forall i :: |s| - 1 - m <= i < |s| - 1 ==> s[i] == s[..|s| - 1][i];
      1 + m
    else 0
  }

  /** Neither end of `s` is whitespace. */
  predicate NoOuterWhitespace(s: string) {
    s == [] || (!IsWhitespace(s[0]) && !IsWhitespace(s[|s| - 1]))
  }

  /** `r` is a slice of `s` with only whitespace before and after it. */
  predicate TrimmedFrom(r: string, s: string) {
    exists i, j :: 0 <= i <= j <= |s| && r == s[i..j] && IsBlank(s[..i]) && IsBlank(s[j..])
  }

  /** `s.trim()`: `s` without its leading and trailing whitespace. */
  function Trim(s: string): (r: string)
    ensures |r| <= |s|
    ensures TrimmedFrom(r, s)
    ensures NoOuterWhitespace(r)
    ensures r == [] <==> IsBlank(s)
  {
    var a := LeadingBlank(s);
    var b := |s| - TrailingBlank(s[a..]);
    LeadingBlankFacts(s);
    TrailingBlankFacts(s, a);
    TrimmedSlice(s, a, b);
    s[a..b]
  }

  /** The leading whitespace of `s` is blank and stops at a non-whitespace
      character. */
  lemma LeadingBlankFacts(s: string)
    ensures IsBlank(s[..LeadingBlank(s)])
    ensures LeadingBlank(s) < |s| ==> !IsWhitespace(s[LeadingBlank(s)])
  {
    var n := LeadingBlank(s);
    assert forall k :: 0 <= k < n ==> s[..n][k] == s[k];
  }

  /** The trailing whitespace of `s[a..]`, read as a suffix of `s`: blank, and
      preceded by a non-whitespace character unless it reaches back to `a`. */
  lemma TrailingBlankFacts(s: string, a: nat)
    requires a <= |s|
    requires a < |s| ==> !IsWhitespace(s[a])
    ensures a <= |s| - TrailingBlank(s[a..])
    ensures a < |s| ==> a < |s| - TrailingBlank(s[a..])
    ensures IsBlank(s[|s| - TrailingBlank(s[a..])..])
    ensures a < |s| - TrailingBlank(s[a..]) ==> !IsWhitespace(s[|s| - TrailingBlank(s[a..]) - 1])
  {
    var t := s[a..];
    var n := TrailingBlank(t);
    var b := |s| - n;
    var u := s[b..];
    assert forall k :: 0 <= k < |u| ==> u[k] == t[b - a + k];
    if a < b {
      assert s[b - 1] == t[|t| - n - 1];
    }
    if a < |s| {
      assert t[0] == s[a];
    }
  }

  /** A slice with blank parts around it and non-whitespace ends is trimmed from
      `s`, and is empty only for a blank `s`. */
  lemma TrimmedSlice(s: string, a: nat, b: nat)
    requires a <= b <= |s| && IsBlank(s[..a]) && IsBlank(s[b..])
    requires a < |s| ==> a < b && !IsWhitespace(s[a])
    requires a < b ==> !IsWhitespace(s[b - 1])
    ensures TrimmedFrom(s[a..b], s) && NoOuterWhitespace(s[a..b])
    ensures s[a..b] == [] <==> IsBlank(s)
  {
    if a < b {
      assert s[a..b][0] == s[a] && s[a..b][b - a - 1] == s[b - 1];
    } else {
      assert s[..a] == s;
    }
  }

  /** The whitespace test read off a blank prefix and a blank suffix. */
  lemma BlankEnds(s: string, i: nat, j: nat)
    requires i <= j <= |s| && IsBlank(s[..i]) && IsBlank(s[j..])
    ensures forall k :: 0 <= k < i || j <= k < |s| ==> IsWhitespace(s[k])
  {
    assert forall k :: 0 <= k < i ==> s[..i][k] == s[k];
    assert forall k :: j <= k < |s| ==> s[j..][k - j] == s[k];
  }

  /** Two slices of `s` with only whitespace around them and none at their own
      ends are the same slice. */
  lemma CleanSliceUnique(s: string, i: nat, j: nat, i': nat, j': nat)
    requires i <= j <= |s| && IsBlank(s[..i]) && IsBlank(s[j..]) && NoOuterWhitespace(s[i..j])
    requires i' <= j' <= |s| && IsBlank(s[..i']) && IsBlank(s[j'..]) && NoOuterWhitespace(s[i'..j'])
    ensures s[i..j] == s[i'..j']
  {
    BlankEnds(s, i, j);
    BlankEnds(s, i', j');
    assert i < j ==> s[i] == s[i..j][0] && s[j - 1] == s[i..j][j - i - 1];
    assert i' < j' ==> s[i'] == s[i'..j'][0] && s[j' - 1] == s[i'..j'][j' - i' - 1];
    assert i < j <==> i' < j';
    if i < j {
      assert i == i' && j == j';
    }
  }

  /** Trimming has one answer: any slice with whitespace around it and none at
      its own ends is the trim. */
  lemma TrimUnique(s: string, r: string)
    requires TrimmedFrom(r, s) && NoOuterWhitespace(r)
    ensures r == Trim(s)
  {
    var i, j :| 0 <= i <= j <= |s| && r == s[i..j] && IsBlank(s[..i]) && IsBlank(s[j..]);
    var t := Trim(s);
    var i', j' :| 0 <= i' <= j' <= |s| && t == s[i'..j'] && IsBlank(s[..i']) && IsBlank(s[j'..]);
    CleanSliceUnique(s, i, j, i', j');
  }

  /** A string with no whitespace at either end is its own trim. */
  lemma TrimNoOuterWhitespace(s: string)
    requires NoOuterWhitespace(s)
    ensures Trim(s) == s
  {
  }

  /** Whitespace around a string with clean ends is exactly what trim removes. */
  lemma TrimPadded(w: string, t: string, w': string)
    requires IsBlank(w) && IsBlank(w') && NoOuterWhitespace(t)
    ensures Trim(w + t + w') == t
  {
    var s := w + t + w';
    assert s[|w|..|w| + |t|] == t;
    assert s[..|w|] == w;
    assert s[|w| + |t|..] == w';
    TrimUnique(s, t);
  }

  /** `${x} ${y}`.trim() for two parts with clean ends: the parts joined by one
      space, or the non-empty part alone. */
  lemma TrimJoin(x: string, y: string)
    requires NoOuterWhitespace(x) && NoOuterWhitespace(y)
    ensures Trim(x + " " + y) == if x == [] then y else if y == [] then x else x + " " + y
  {
    var e: string := [];
    assert IsBlank(" ") && IsBlank(e);
    if x == [] {
      assert x + " " + y == " " + y + e;
      TrimPadded(" ", y, e);
    } else if y == [] {
      assert x + " " + y == e + x + " ";
      TrimPadded(e, x, " ");
    } else {
      var t := x + " " + y;
      assert t[0] == x[0] && t[|t| - 1] == y[|y| - 1];
      assert t == e + t + e;
      TrimPadded(e, t, e);
    }
  }

  /** `s.includes(t)`: `t` occurs in `s` as a contiguous block. */
  predicate Contains(s: string, t: string) {
    exists i :: 0 <= i <= |s| - |t| && OccursAt(s, t, i)
  }

  /** `t` occurs in `s` starting at index `i`. */
  predicate OccursAt(s: string, t: string, i: int) {
    0 <= i && i + |t| <= |s| && s[i..i + |t|] == t
  }

  /** The empty string occurs in every string. */
  lemma ContainsEmpty(s: string)
    ensures Contains(s, [])
  {
    assert OccursAt(s, [], 0);
  }

  /** Every string occurs in itself. */
  lemma ContainsSelf(s: string)
    ensures Contains(s, s)
  {
    assert OccursAt(s, s, 0);
  }

  /** `s.replace(/a/g, b)` for a single character `a`. */
  function ReplaceChar(s: string, a: char, b: char): (r: string)
    ensures |r| == |s|
    ensures forall i :: 0 <= i < |s| ==> r[i] == (if s[i] == a then b else s[i])
  {
    if s == [] then [] else [if s[0] == a then b else s[0]] + ReplaceChar(s[1..], a, b)
  }

  /** `s.split(sep)` for a one-character separator: the pieces between
      separators, including empty ones, and always at least one piece. */
  function SplitOn(s: string, sep: char): (r: seq<string>)
    ensures |r| >= 1
    ensures forall k :: 0 <= k < |r| ==> sep !in r[k]
  {
    if s == [] then [[]]
    else
      var rest := SplitOn(s[1..], sep);
      if s[0] == sep then [[]] + rest else [[s[0]] + rest[0]] + rest[1..]
  }

  /** `ps.join(sep)`. */
  function Join(ps: seq<string>, sep: char): string
  {
    if |ps| == 0 then []
    else if |ps| == 1 then ps[0]
    else ps[0] + [sep] + Join(ps[1..], sep)
  }

  /** Joining the pieces of a split restores the string. */
  lemma {:induction false} JoinSplit(s: string, sep: char)
    ensures Join(SplitOn(s, sep), sep) == s
  {
    if s != [] {
      var rest := SplitOn(s[1..], sep);
      JoinSplit(s[1..], sep);
      if s[0] == sep {
        assert ([[]] + rest)[1..] == rest;
        assert [sep] + Join(rest, sep) == s;
      } else {
        var r := [[s[0]] + rest[0]] + rest[1..];
        assert r[1..] == rest[1..];
        if |rest| == 1 {
          assert [s[0]] + rest[0] == s;
        } else {
          assert Join(rest, sep) == rest[0] + [sep] + Join(rest[1..], sep);
          assert [s[0]] + Join(rest, sep) == s;
        }
      }
    }
  }

  /** Splitting a string whose head contains no separator extends the first piece. */
  lemma {:induction false} SplitPrefix(x: string, t: string, sep: char)
    requires sep !in x
    ensures SplitOn(x + t, sep) == [x + SplitOn(t, sep)[0]] + SplitOn(t, sep)[1..]
  {
    if x != [] {
      assert (x + t)[1..] == x[1..] + t;
      SplitPrefix(x[1..], t, sep);
      assert [x[0]] + (x[1..] + SplitOn(t, sep)[0]) == x + SplitOn(t, sep)[0];
    } else {
      assert x + t == t;
      assert x + SplitOn(t, sep)[0] == SplitOn(t, sep)[0];
      assert [SplitOn(t, sep)[0]] + SplitOn(t, sep)[1..] == SplitOn(t, sep);
    }
  }

  /** Splitting the join of separator-free pieces gives the pieces back. */
  lemma {:induction false} SplitJoin(ps: seq<string>, sep: char)
    requires |ps| >= 1
    requires forall k :: 0 <= k < |ps| ==> sep !in ps[k]
    ensures SplitOn(Join(ps, sep), sep) == ps
  {
    if |ps| == 1 {
      SplitPrefix(ps[0], [], sep);
      assert ps[0] + [] == ps[0];
    } else {
      var tail := Join(ps[1..], sep);
      SplitJoin(ps[1..], sep);
      assert ps[0] + [sep] + tail == ps[0] + ([sep] + tail);
      SplitPrefix(ps[0], [sep] + tail, sep);
      assert ([sep] + tail)[1..] == tail;
      assert SplitOn([sep] + tail, sep) == [[]] + ps[1..];
      assert ps[0] + [] == ps[0];
      assert [ps[0]] + ps[1..] == ps;
    }
  }

  /** Joining one more piece appends a separator and the piece. */
  lemma {:induction false} JoinSnoc(ps: seq<string>, x: string, sep: char)
    requires |ps| >= 1
    ensures Join(ps + [x], sep) == Join(ps, sep) + [sep] + x
  {
    if |ps| == 1 {
      assert (ps + [x])[1..] == [x];
    } else {
      assert (ps + [x])[1..] == ps[1..] + [x];
      JoinSnoc(ps[1..], x, sep);
    }
  }

  /** `s.split(a).join(b)` replaces every `a` by `b`. */
  lemma {:induction false} JoinSplitReplace(s: string, a: char, b: char)
    ensures Join(SplitOn(s, a), b) == ReplaceChar(s, a, b)
  {
    if s != [] {
      var rest := SplitOn(s[1..], a);
      JoinSplitReplace(s[1..], a, b);
      if s[0] == a {
        assert ([[]] + rest)[1..] == rest;
        assert Join([[]] + rest, b) == [b] + Join(rest, b);
      } else {
        var r := [[s[0]] + rest[0]] + rest[1..];
        assert r[1..] == rest[1..];
        if |rest| == 1 {
          assert Join(r, b) == [s[0]] + Join(rest, b);
        } else {
          assert Join(rest, b) == rest[0] + [b] + Join(rest[1..], b);
          assert Join(r, b) == [s[0]] + Join(rest, b);
        }
      }
    }
  }

  /** The digit character of a value below ten. */
  function DigitChar(d: nat): (c: char)
    requires d < 10
    ensures IsDigit(c) && c as int - '0' as int == d
  {
    ('0' as int + d) as char
  }

  /** The decimal digits of a natural number, most significant first, with no
      leading zero. */
  function NatDigits(n: nat): (r: string)
    ensures |r| >= 1
    ensures forall i :: 0 <= i < |r| ==> IsDigit(r[i])
    ensures r[0] == '0' ==> n == 0 && r == "0"
    decreases n
  {
    if n < 10 then [DigitChar(n)] else NatDigits(n / 10) + [DigitChar(n % 10)]
  }

  /** `n.toString()` for an integer: a '-' before the digits of a negative one. */
  function IntToString(n: int): (r: string)
    ensures |r| >= 1
    ensures n < 0 <==> r[0] == '-'
    ensures n >= 0 ==> r == NatDigits(n)
    ensures n < 0 ==> r[1..] == NatDigits(-n)
  {
    if n < 0 then "-" + NatDigits(-n) else NatDigits(n)
  }

  /** The value of a string of decimal digits. */
  function DigitsValue(s: string): nat
    requires forall i :: 0 <= i < |s| ==> IsDigit(s[i])
  {
    if s == [] then 0
    else
      assert IsDigit(s[|s| - 1]);
      DigitsValue(s[..|s| - 1]) * 10 + (s[|s| - 1] as int - '0' as int)
  }

  /** Reading the digits back gives the number. */
  lemma {:induction false} NatDigitsValue(n: nat)
    ensures DigitsValue(NatDigits(n)) == n
    decreases n
  {
    if n >= 10 {
      var r := NatDigits(n);
      NatDigitsValue(n / 10);
      assert r[..|r| - 1] == NatDigits(n / 10);
    }
  }

  /** Different integers print differently. */
  lemma IntToStringInjective(a: int, b: int)
    requires IntToString(a) == IntToString(b)
    ensures a == b
  {
    if a < 0 {
      NatDigitsValue(-a);
      NatDigitsValue(-b);
    } else {
      NatDigitsValue(a);
      NatDigitsValue(b);
    }
  }
}
