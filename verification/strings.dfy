/**
 * The JavaScript string operations the blocker relies on, written out:
 * String.prototype.trim, toLowerCase (ASCII letters only), includes,
 * split with a one-character separator and Array.prototype.join.
 */
module Strings {

  /** The ECMAScript WhiteSpace and LineTerminator code points: what `trim` removes. */
  predicate IsWhitespace(c: char)
  {
    var n := c as int;
    n == 0x09 || n == 0x0A || n == 0x0B || n == 0x0C || n == 0x0D || n == 0x20 ||
    n == 0xA0 || n == 0x1680 || (0x2000 <= n <= 0x200A) || n == 0x2028 || n == 0x2029 ||
    n == 0x202F || n == 0x205F || n == 0x3000 || n == 0xFEFF
  }

  predicate AllWhitespace(s: string)
  {
    forall i :: 0 <= i < |s| ==> IsWhitespace(s[i])
  }

  /** Neither end of `s` is whitespace: `trim` would leave it as it is. */
  predicate IsTrimmed(s: string)
  {
    s == [] || (!IsWhitespace(s[0]) && !IsWhitespace(s[|s| - 1]))
  }

  function TrimStart(s: string): (r: string)
    ensures |r| <= |s|
    ensures r == [] || !IsWhitespace(r[0])
  {
    if s != [] && IsWhitespace(s[0]) then TrimStart(s[1..]) else s
  }

  /** `TrimStart` drops a whitespace prefix and keeps the rest. */
  lemma {:induction false} TrimStartSlice(s: string)
    ensures TrimStart(s) == s[|s| - |TrimStart(s)|..]
    ensures AllWhitespace(s[..|s| - |TrimStart(s)|])
  {
    if s != [] && IsWhitespace(s[0]) {
      TrimStartSlice(s[1..]);
      var n := |s| - |TrimStart(s)|;
      assert s[1..][n - 1..] == s[n..];
      assert forall i :: 1 <= i < n ==> s[..n][i] == s[1..][..n - 1][i - 1];
    }
  }

  function TrimEnd(s: string): (r: string)
    ensures |r| <= |s|
    ensures r == [] || !IsWhitespace(r[|r| - 1])
  {
    if s != [] && IsWhitespace(s[|s| - 1]) then TrimEnd(s[..|s| - 1]) else s
  }

  /** `TrimEnd` drops a whitespace suffix and keeps the rest. */
  lemma {:induction false} TrimEndSlice(s: string)
    ensures TrimEnd(s) == s[..|TrimEnd(s)|]
    ensures AllWhitespace(s[|TrimEnd(s)|..])
  {
    if s != [] && IsWhitespace(s[|s| - 1]) {
      var front := s[..|s| - 1];
      TrimEndSlice(front);
      var n := |TrimEnd(s)|;
      assert front[..n] == s[..n];
      assert forall i :: 0 <= i < |s| - 1 - n ==> s[n..][i] == front[n..][i];
    }
  }

  /** String.prototype.trim: the middle slice of `s` once whitespace is cut from both ends. */
  function Trim(s: string): (r: string)
    ensures IsTrimmed(r)
    ensures |r| <= |s|
    ensures forall c :: c in r ==> c in s
    ensures r == [] <==> AllWhitespace(s)
  {
    var front := TrimStart(s);
    var r := TrimEnd(front);
    TrimStartSlice(s);
    TrimEndSlice(front);
    assert s == s[..|s| - |front|] + front;
    assert front == r + front[|r|..];
    r
  }

  /** `trim` returns the contiguous middle of `s`, with only whitespace cut from either end. */
  lemma TrimSlice(s: string)
    ensures exists i, j :: 0 <= i <= j <= |s| && Trim(s) == s[i..j] && AllWhitespace(s[..i]) && AllWhitespace(s[j..])
  {
    var front := TrimStart(s);
    TrimStartSlice(s);
    TrimEndSlice(front);
    var i := |s| - |front|;
    var j := i + |Trim(s)|;
    assert Trim(s) == s[i..j];
    assert s[j..] == front[|Trim(s)|..];
  }

  lemma TrimOfTrimmed(s: string)
    requires IsTrimmed(s)
    ensures Trim(s) == s
  {
  }

  /** Whitespace in front of a string does not survive `trim`. */
  lemma TrimLeadingWhitespace(c: char, s: string)
    requires IsWhitespace(c)
    ensures Trim([c] + s) == Trim(s)
  {
    assert ([c] + s)[1..] == s;
  }

  /** ASCII `toLowerCase` of one character. */
  function LowerChar(c: char): char
  {
    if 'A' <= c <= 'Z' then (c as int + 32) as char else c
  }

  function Lower(s: string): (r: string)
    ensures |r| == |s|
    ensures forall i :: 0 <= i < |s| ==> r[i] == LowerChar(s[i])
  {
    seq(|s|, i requires 0 <= i < |s| => LowerChar(s[i]))
  }

  lemma LowerIdempotent(s: string)
    ensures Lower(Lower(s)) == Lower(s)
  {
  }

  /** `needle` occurs in `haystack` starting at index `i`. */
  predicate OccursAt(haystack: string, needle: string, i: int)
  {
    0 <= i && i + |needle| <= |haystack| && haystack[i..i + |needle|] == needle
  }

  /** String.prototype.includes: try each start position from the left. */
  function Contains(haystack: string, needle: string): (r: bool)
    ensures r <==> exists i :: OccursAt(haystack, needle, i)
    decreases |haystack|
  {
    if |needle| > |haystack| then false
    else if haystack[..|needle|] == needle then
      assert OccursAt(haystack, needle, 0);
      true
    else
      var tail := haystack[1..];
      assert forall i :: OccursAt(haystack, needle, i) ==> i >= 1 && OccursAt(tail, needle, i - 1);
      assert forall i :: OccursAt(tail, needle, i) ==> OccursAt(haystack, needle, i + 1);
      Contains(tail, needle)
  }

  /** String.prototype.split with a one-character separator: never an empty list. */
  function Split(s: string, sep: char): (r: seq<string>)
    ensures |r| >= 1
    ensures forall k :: 0 <= k < |r| ==> sep !in r[k]
  {
    if s == [] then [[]]
    else
      var rest := Split(s[1..], sep);
      if s[0] == sep then [[]] + rest
      else [[s[0]] + rest[0]] + rest[1..]
  }

  /** Array.prototype.join. */
  function Join(parts: seq<string>, sep: string): (r: string)
    ensures |parts| == 1 ==> r == parts[0]
  {
    if |parts| == 0 then []
    else if |parts| == 1 then parts[0]
    else parts[0] + sep + Join(parts[1..], sep)
  }

  /** Splitting and joining back with the same separator gives the original string. */
  lemma {:induction false} JoinSplit(s: string, sep: char)
    ensures Join(Split(s, sep), [sep]) == s
  {
    if s != [] {
      var rest := Split(s[1..], sep);
      JoinSplit(s[1..], sep);
      if s[0] == sep {
        assert ([[]] + rest)[1..] == rest;
      } else if |rest| > 1 {
        var parts := [[s[0]] + rest[0]] + rest[1..];
        assert parts[1..] == rest[1..];
        assert Join(rest, [sep]) == rest[0] + [sep] + Join(rest[1..], [sep]);
      }
    }
  }

  /** A separator-free prefix is glued to the first field of what follows it. */
  lemma {:induction false} SplitPrefix(a: string, s: string, sep: char)
    requires sep !in a
    ensures Split(a + s, sep) == [a + Split(s, sep)[0]] + Split(s, sep)[1..]
  {
    if a != [] {
      var whole := a + s;
      assert whole != [] && whole[0] == a[0] && a[0] != sep;
      assert whole[1..] == a[1..] + s;
      SplitPrefix(a[1..], s, sep);
      var fields := Split(s, sep);
      var rest := Split(whole[1..], sep);
      assert rest == [a[1..] + fields[0]] + fields[1..];
      assert rest[0] == a[1..] + fields[0];
      assert rest[1..] == fields[1..];
      assert Split(whole, sep) == [[a[0]] + rest[0]] + rest[1..];
      assert [a[0]] + (a[1..] + fields[0]) == a + fields[0];
      assert [[a[0]] + rest[0]] + rest[1..] == [a + fields[0]] + fields[1..];
    } else {
      var fields := Split(s, sep);
      assert a + s == s && a + fields[0] == fields[0];
      assert [fields[0]] + fields[1..] == fields;
    }
  }

  lemma SplitNoSeparator(a: string, sep: char)
    requires sep !in a
    ensures Split(a, sep) == [a]
  {
    SplitPrefix(a, [], sep);
    assert a + [] == a;
  }

  lemma SplitAfterSeparator(a: string, b: string, sep: char)
    requires sep !in a
    ensures Split(a + [sep] + b, sep) == [a] + Split(b, sep)
  {
    var tail := [sep] + b;
    assert a + [sep] + b == a + tail;
    SplitPrefix(a, tail, sep);
    assert tail[1..] == b && tail[0] == sep;
    assert Split(tail, sep) == [[]] + Split(b, sep);
    assert a + [] == a;
  }

  /** A field of a split holds no character the string did not hold. */
  lemma {:induction false} SplitAvoids(s: string, sep: char, c: char)
    requires c !in s
    ensures forall k :: 0 <= k < |Split(s, sep)| ==> c !in Split(s, sep)[k]
  {
    if s != [] {
      assert c !in s[1..] by {
        assert forall i :: 0 <= i < |s| - 1 ==> s[1..][i] == s[i + 1];
      }
      SplitAvoids(s[1..], sep, c);
    }
  }

  /** Joining separator-free fields and splitting again gives the fields back. */
  lemma {:induction false} SplitJoin(parts: seq<string>, sep: char)
    requires |parts| >= 1
    requires forall k :: 0 <= k < |parts| ==> sep !in parts[k]
    ensures Split(Join(parts, [sep]), sep) == parts
  {
    if |parts| == 1 {
      SplitNoSeparator(parts[0], sep);
    } else {
      SplitJoin(parts[1..], sep);
      SplitAfterSeparator(parts[0], Join(parts[1..], [sep]), sep);
    }
  }

  lemma AllWhitespaceCons(c: char, s: string)
    ensures AllWhitespace([c] + s) <==> IsWhitespace(c) && AllWhitespace(s)
  {
    var cs := [c] + s;
    assert cs[0] == c;
    assert forall i :: 0 <= i < |s| ==> cs[i + 1] == s[i];
  }

  /** Every field of a split is blank. */
  predicate AllBlank(fields: seq<string>)
  {
    forall k :: 0 <= k < |fields| ==> AllWhitespace(fields[k])
  }

  lemma AllBlankCons(field: string, fields: seq<string>)
    ensures AllBlank([field] + fields) <==> AllWhitespace(field) && AllBlank(fields)
  {
    var all := [field] + fields;
    assert all[0] == field;
    assert forall k :: 0 <= k < |fields| ==> all[k + 1] == fields[k];
  }

  /**
   * When the separator is whitespace, every field of the split is blank
   * exactly when the whole string is.
   */
  lemma {:induction false} SplitAllWhitespace(s: string, sep: char)
    requires IsWhitespace(sep)
    ensures AllWhitespace(s) <==> AllBlank(Split(s, sep))
  {
    if s != [] {
      var rest := Split(s[1..], sep);
      SplitAllWhitespace(s[1..], sep);
      assert s == [s[0]] + s[1..];
      AllWhitespaceCons(s[0], s[1..]);
      if s[0] == sep {
        AllBlankCons([], rest);
      } else {
        assert rest == [rest[0]] + rest[1..];
        AllBlankCons(rest[0], rest[1..]);
        AllBlankCons([s[0]] + rest[0], rest[1..]);
        AllWhitespaceCons(s[0], rest[0]);
      }
    }
  }

  function DigitChar(d: nat): char
    requires d < 10
  {
    ('0' as int + d) as char
  }

  /** Decimal rendering of a count, as a template literal writes it. */
  function NatToString(n: nat): (r: string)
    ensures |r| >= 1
    ensures forall i :: 0 <= i < |r| ==> '0' <= r[i] <= '9'
  {
    if n < 10 then [DigitChar(n)] else NatToString(n / 10) + [DigitChar(n % 10)]
  }
}
