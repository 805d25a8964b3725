/**
 * The string operations of Rust's standard library that the launcher relies on:
 * `str::split` on a character, `[String]::join`, `str::replace`, `str::trim`
 * and the decimal formatting of an unsigned integer.
 */
module Text {

  // ---------------------------------------------------------------------------
  // sequence facts, each stated once so that proofs can cite them

  /** A non-empty sequence is its front followed by its last element, also after a prefix. */
  lemma SplitLast<T>(a: seq<T>, b: seq<T>)
    requires b != []
    ensures b == b[..|b| - 1] + [b[|b| - 1]]
    ensures a + b == (a + b[..|b| - 1]) + [b[|b| - 1]]
  {
  }

  lemma AppendAssoc<T>(x: seq<T>, y: seq<T>, z: seq<T>)
    ensures (x + y) + z == x + (y + z)
  {
  }

  lemma ConsDrop<T>(a: seq<T>, t: seq<T>)
    requires a != []
    ensures (a + t)[0] == a[0] && (a + t)[1..] == a[1..] + t && [a[0]] + a[1..] == a
  {
  }

  lemma DropAppend<T>(a: seq<T>, t: seq<T>, n: nat)
    requires n <= |a|
    ensures (a + t)[..n] == a[..n] && (a + t)[n..] == a[n..] + t
  {
  }

  lemma DropDrop<T>(s: seq<T>, i: nat)
    requires i < |s|
    ensures s[i..][1..] == s[i + 1..]
  {
  }

  lemma Reassociate<T>(a: seq<T>, b: seq<T>, c: seq<T>, d: seq<T>, e: seq<T>, f: seq<T>)
    ensures a + (b + (c + (d + (e + f)))) == a + b + c + d + e + f
  {
    AppendAssoc(a, b, c + (d + (e + f)));
    AppendAssoc(a + b, c, d + (e + f));
    AppendAssoc(a + b + c, d, e + f);
    AppendAssoc(a + b + c + d, e, f);
  }

  lemma SevenFields<T>(a: T, b: T, c: T, d: T, e: T, f: T, g: T)
    ensures [a] + ([b] + ([c] + ([d] + ([e] + ([f] + [g]))))) == [a, b, c, d, e, f, g]
  {
  }

  lemma ConsThree<T>(a: T, b: T, c: T, t: seq<T>)
    ensures [a] + ([b] + ([c] + t)) == [a, b, c] + t
  {
  }

  lemma AppendEmptyLeft<T>(x: seq<T>)
    ensures [] + x == x
  {
  }

  lemma AppendEmptyRight<T>(x: seq<T>)
    ensures x + [] == x
  {
  }

  /** One more element of a prefix. */
  lemma PrefixStep<T>(s: seq<T>, i: nat)
    requires i < |s|
    ensures s[..i + 1][..i] == s[..i] && s[..i + 1][i] == s[i]
  {
  }

  lemma PrefixSnoc<T>(s: seq<T>, i: nat)
    requires i < |s|
    ensures s[..i + 1] == s[..i] + [s[i]]
  {
  }

  lemma PrefixAll<T>(s: seq<T>)
    ensures s[..|s|] == s
  {
  }

  /** Number of occurrences of `c` in `s`. */
  function Count(s: string, c: char): nat
  {
    if s == [] then 0 else (if s[0] == c then 1 else 0) + Count(s[1..], c)
  }

  // ---------------------------------------------------------------------------
  // split and join

  /** `s.split(c)`: every field between separators, empty fields included. */
  function Split(s: string, c: char): (parts: seq<string>)
    ensures |parts| == Count(s, c) + 1
    ensures forall i :: 0 <= i < |parts| ==> c !in parts[i]
  {
    if s == [] then [""]
    else
      var rest := Split(s[1..], c);
      if s[0] == c then [""] + rest
      else [[s[0]] + rest[0]] + rest[1..]
  }

  /** `parts.join(sep)`: the parts with `sep` between neighbours. */
  function Join(parts: seq<string>, sep: string): string
  {
    if |parts| == 0 then ""
    else if |parts| == 1 then parts[0]
    else parts[0] + sep + Join(parts[1..], sep)
  }

  /** Splitting on `c` distributes over a separator `c` placed between two strings. */
  lemma {:induction false} SplitConcat(a: string, b: string, c: char)
    ensures Split(a + [c] + b, c) == Split(a, c) + Split(b, c)
  {
    AppendAssoc(a, [c], b);
    if a == [] {
      AppendEmptyLeft([c] + b);
      ConsDrop([c], b);
    } else {
      ConsDrop(a, [c] + b);
      AppendAssoc(a[1..], [c], b);
      SplitConcat(a[1..], b, c);
      var p := Split(a[1..], c);
      var q := Split(b, c);
      if a[0] == c {
        AppendAssoc([""], p, q);
      } else {
        ConsDrop(p, q);
        AppendAssoc([[a[0]] + p[0]], p[1..], q);
      }
    }
  }

  /** A string without the separator is one field. */
  lemma {:induction false} SplitWithoutSeparator(s: string, c: char)
    requires c !in s
    ensures Split(s, c) == [s]
  {
    if s != [] {
      SplitWithoutSeparator(s[1..], c);
      assert [s[0]] + s[1..] == s;
    }
  }

  /** A separator-free field followed by the separator splits off as the first field. */
  lemma SplitField(x: string, rest: string, c: char)
    requires c !in x
    ensures Split(x + [c] + rest, c) == [x] + Split(rest, c)
  {
    SplitWithoutSeparator(x, c);
    SplitConcat(x, rest, c);
  }

  /** Joining the fields of a split rebuilds the string. */
  lemma {:induction false} JoinSplit(s: string, c: char)
    ensures Join(Split(s, c), [c]) == s
  {
    if s != [] {
      var rest := Split(s[1..], c);
      JoinSplit(s[1..], c);
      if s[0] == c {
        assert Join([""] + rest, [c]) == [c] + Join(rest, [c]) by {
          assert ([""] + rest)[1..] == rest;
        }
        assert [c] + s[1..] == s;
      } else {
        JoinHead([s[0]], rest[0], rest[1..], [c]);
        assert [rest[0]] + rest[1..] == rest;
        assert [s[0]] + s[1..] == s;
      }
    }
  }

  /** A join of at least two parts starts with the first part and a separator. */
  lemma JoinCons(parts: seq<string>, sep: string)
    requires |parts| >= 2
    ensures Join(parts, sep) == parts[0] + (sep + Join(parts[1..], sep))
  {
    AppendAssoc(parts[0], sep, Join(parts[1..], sep));
  }

  lemma JoinHead(a: string, b: string, t: seq<string>, sep: string)
    ensures Join([a + b] + t, sep) == a + Join([b] + t, sep)
  {
    assert ([a + b] + t)[1..] == t == ([b] + t)[1..];
  }

  /** Splitting a join of separator-free parts gives the parts back. */
  lemma {:induction false} SplitJoin(parts: seq<string>, c: char)
    requires |parts| > 0
    requires forall i :: 0 <= i < |parts| ==> c !in parts[i]
    ensures Split(Join(parts, [c]), c) == parts
  {
    SplitWithoutSeparator(parts[0], c);
    if |parts| > 1 {
      SplitJoin(parts[1..], c);
      SplitConcat(parts[0], Join(parts[1..], [c]), c);
      assert [parts[0]] + parts[1..] == parts;
    }
  }

  /** The fields of every part, one part after the other. */
  function SplitEach(parts: seq<string>, c: char): seq<string>
  {
    if parts == [] then [] else Split(parts[0], c) + SplitEach(parts[1..], c)
  }

  lemma SplitEachCons(x: string, rest: seq<string>, c: char)
    ensures SplitEach([x] + rest, c) == Split(x, c) + SplitEach(rest, c)
  {
    assert ([x] + rest)[1..] == rest;
  }

  /** Splitting a join gives the fields of each part, in order. */
  lemma {:induction false} SplitJoinEach(parts: seq<string>, c: char)
    requires |parts| > 0
    ensures Split(Join(parts, [c]), c) == SplitEach(parts, c)
  {
    if |parts| == 1 {
      assert parts[1..] == [];
    } else {
      SplitJoinEach(parts[1..], c);
      SplitConcat(parts[0], Join(parts[1..], [c]), c);
    }
  }

  /** Parts without the separator are their own fields. */
  lemma {:induction false} SplitEachSeparatorFree(parts: seq<string>, c: char)
    requires forall i :: 0 <= i < |parts| ==> c !in parts[i]
    ensures SplitEach(parts, c) == parts
  {
    if parts != [] {
      SplitWithoutSeparator(parts[0], c);
      SplitEachSeparatorFree(parts[1..], c);
      assert [parts[0]] + parts[1..] == parts;
    }
  }

  /** Joining with a separator, then appending one more part. */
  lemma {:induction false} JoinSnoc(parts: seq<string>, x: string, sep: string)
    requires |parts| > 0
    ensures Join(parts + [x], sep) == Join(parts, sep) + sep + x
  {
    if |parts| > 1 {
      assert (parts + [x])[1..] == parts[1..] + [x];
      JoinSnoc(parts[1..], x, sep);
    } else {
      assert (parts + [x])[1..] == [x];
    }
  }

  // ---------------------------------------------------------------------------
  // replace

  /**
   * `s.replace(pat, rep)`: scans `s` left to right and replaces each
   * non-overlapping occurrence of `pat` by `rep`. Text produced by `rep` is not
   * scanned again.
   */
  function ReplaceAll(s: string, pat: string, rep: string): (r: string)
    requires pat != []
    ensures |s| < |pat| ==> r == s
    ensures pat[0] !in s ==> r == s
    ensures |rep| == |pat| ==> |r| == |s|
    decreases |s|
  {
    if |s| < |pat| then s
    else if s[..|pat|] == pat then rep + ReplaceAll(s[|pat|..], pat, rep)
    else
      var r := [s[0]] + ReplaceAll(s[1..], pat, rep);
      ConsDrop(s, []);
      r
  }

  /** No occurrence at the front: the first character is kept. */
  lemma ReplaceAllMiss(s: string, pat: string, rep: string)
    requires pat != [] && |s| >= |pat| && s[..|pat|] != pat
    ensures ReplaceAll(s, pat, rep) == [s[0]] + ReplaceAll(s[1..], pat, rep)
  {
  }

  /** A prefix that never holds the pattern's first character passes through unchanged. */
  lemma {:induction false} ReplaceAllSkips(a: string, t: string, pat: string, rep: string)
    requires pat != [] && pat[0] !in a
    ensures ReplaceAll(a + t, pat, rep) == a + ReplaceAll(t, pat, rep)
  {
    if a == [] {
      AppendEmptyLeft(t);
      AppendEmptyLeft(ReplaceAll(t, pat, rep));
    } else {
      var s := a + t;
      ConsDrop(a, t);
      if |s| >= |pat| {
        assert s[..|pat|][0] == s[0];
        ReplaceAllMiss(s, pat, rep);
        ReplaceAllSkips(a[1..], t, pat, rep);
        AppendAssoc([a[0]], a[1..], ReplaceAll(t, pat, rep));
      }
    }
  }

  /**
   * Splitting before a character that can only start an occurrence: when the
   * pattern's first character does not recur in it and `t` starts with that
   * character, no occurrence straddles `a` and `t`.
   */
  lemma {:induction false} ReplaceAllSplit(a: string, t: string, pat: string, rep: string)
    requires pat != [] && pat[0] !in pat[1..] && t != [] && t[0] == pat[0]
    ensures ReplaceAll(a + t, pat, rep) == ReplaceAll(a, pat, rep) + ReplaceAll(t, pat, rep)
    decreases |a|
  {
    if a == [] {
      AppendEmptyLeft(t);
      AppendEmptyLeft(ReplaceAll(t, pat, rep));
    } else {
      var s := a + t;
      ConsDrop(a, t);
      if |s| < |pat| {
      } else if |a| < |pat| {
        assert s[..|pat|][|a|] == t[0];
        assert pat[1..][|a| - 1] == pat[|a|];
        ReplaceAllMiss(s, pat, rep);
        ReplaceAllSplit(a[1..], t, pat, rep);
        AppendAssoc([a[0]], a[1..], ReplaceAll(t, pat, rep));
      } else {
        DropAppend(a, t, |pat|);
        if a[..|pat|] == pat {
          ReplaceAllSplit(a[|pat|..], t, pat, rep);
          AppendAssoc(rep, ReplaceAll(a[|pat|..], pat, rep), ReplaceAll(t, pat, rep));
        } else {
          ReplaceAllMiss(s, pat, rep);
          ReplaceAllMiss(a, pat, rep);
          ReplaceAllSplit(a[1..], t, pat, rep);
          AppendAssoc([a[0]], ReplaceAll(a[1..], pat, rep), ReplaceAll(t, pat, rep));
        }
      }
    }
  }

  /** An occurrence of the pattern at the front is replaced. */
  lemma ReplaceAllHit(pat: string, t: string, rep: string)
    requires pat != []
    ensures ReplaceAll(pat + t, pat, rep) == rep + ReplaceAll(t, pat, rep)
  {
    assert (pat + t)[..|pat|] == pat;
    assert (pat + t)[|pat|..] == t;
  }

  /** Replacing one character by another acts character by character. */
  lemma {:induction false} ReplaceCharPointwise(s: string, a: char, b: char)
    ensures |ReplaceAll(s, [a], [b])| == |s|
    ensures forall i :: 0 <= i < |s| ==>
      ReplaceAll(s, [a], [b])[i] == (if s[i] == a then b else s[i])
  {
    if s != [] {
      ReplaceCharPointwise(s[1..], a, b);
      if s[..1] == [a] {
        assert s[0] == a;
      } else {
        assert s[0] != a;
      }
    }
  }

  // ---------------------------------------------------------------------------
  // trim

  /** Rust's `char::is_whitespace`: the Unicode White_Space property. */
  predicate IsWhitespace(c: char)
  {
    c == ' ' || ('\t' <= c <= '\r') || c == '\U{85}' || c == '\U{A0}'
    || c == '\U{1680}' || ('\U{2000}' <= c <= '\U{200A}') || c == '\U{2028}'
    || c == '\U{2029}' || c == '\U{202F}' || c == '\U{205F}' || c == '\U{3000}'
  }

  /** The first index at or after `i` that does not hold white space. */
  function SkipWhitespace(s: string, i: nat): (k: nat)
    requires i <= |s|
    ensures i <= k <= |s|
    ensures forall j :: i <= j < k ==> IsWhitespace(s[j])
    ensures k == |s| || !IsWhitespace(s[k])
    decreases |s| - i
  {
    if i < |s| && IsWhitespace(s[i]) then SkipWhitespace(s, i + 1) else i
  }

  /** The index just past the last character before `j` that is not white space. */
  function SkipWhitespaceBack(s: string, j: nat): (k: nat)
    requires j <= |s|
    ensures k <= j
    ensures forall i :: k <= i < j ==> IsWhitespace(s[i])
    ensures k == 0 || !IsWhitespace(s[k - 1])
  {
    if 0 < j && IsWhitespace(s[j - 1]) then SkipWhitespaceBack(s, j - 1) else j
  }

  /** `r` is the slice of `s` at `i`, and everything of `s` around it is white space. */
  predicate TrimmedAt(s: string, r: string, i: nat)
  {
    i + |r| <= |s| && r == s[i..i + |r|]
    && (forall k :: 0 <= k < i ==> IsWhitespace(s[k]))
    && (forall k :: i + |r| <= k < |s| ==> IsWhitespace(s[k]))
  }

  /** `s.trim()`: white space removed at both ends, nothing else touched. */
  function Trim(s: string): (r: string)
    ensures exists i :: TrimmedAt(s, r, i)
    ensures r == [] || (!IsWhitespace(r[0]) && !IsWhitespace(r[|r| - 1]))
  {
    var i := SkipWhitespace(s, 0);
    var j := SkipWhitespaceBack(s, |s|);
    if j <= i then
      assert TrimmedAt(s, "", |s|);
      ""
    else
      assert TrimmedAt(s, s[i..j], i);
      s[i..j]
  }

  /** A string that already starts and ends with non-white-space is its own trim. */
  lemma TrimNoop(s: string)
    requires s == [] || (!IsWhitespace(s[0]) && !IsWhitespace(s[|s| - 1]))
    ensures Trim(s) == s
  {
  }

  // ---------------------------------------------------------------------------
  // decimal numerals

  predicate IsDigit(c: char)
  {
    '0' as int <= c as int <= '9' as int
  }

  function DigitChar(d: nat): (c: char)
    requires d < 10
    ensures IsDigit(c) && c as int - '0' as int == d
  {
    ('0' as int + d) as char
  }

  /** `format!("{}", n)` for an unsigned integer: decimal, no leading zero. */
  function DecimalString(n: nat): (s: string)
    ensures |s| > 0
    ensures forall i :: 0 <= i < |s| ==> IsDigit(s[i])
    ensures s[0] == '0' ==> n == 0
  {
    if n < 10 then [DigitChar(n)] else DecimalString(n / 10) + [DigitChar(n % 10)]
  }

  /** The value of a string of decimal digits. */
  function ParseDecimal(s: string): nat
    requires forall i :: 0 <= i < |s| ==> IsDigit(s[i])
  {
    if s == [] then 0
    else
      assert IsDigit(s[|s| - 1]);
      10 * ParseDecimal(s[..|s| - 1]) + (s[|s| - 1] as int - '0' as int)
  }

  /** Reading the decimal numeral back gives the number. */
  lemma {:induction false} DecimalRoundTrip(n: nat)
    ensures ParseDecimal(DecimalString(n)) == n
  {
    if n >= 10 {
      var s := DecimalString(n);
      assert s[..|s| - 1] == DecimalString(n / 10);
      DecimalRoundTrip(n / 10);
    }
  }
}
