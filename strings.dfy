/**
 * The parts of Python's `str` that the core relies on, written out:
 * `isspace` (also what `\s` matches in a text regular expression), `strip`,
 * `find`, `split`, `join`, `replace` and the decimal rendering `str(n)`.
 * Python strings are sequences of code points, as Dafny strings are.
 */
module Strings {

  /** `c.isspace()`: the characters Python treats as whitespace. */
  predicate IsSpace(c: char) {
    || c == ' '
    || '\t' <= c <= '\r'
    || '\U{1C}' <= c <= '\U{1F}'
    || c == '\U{85}'
    || c == '\U{A0}'
    || c == '\U{1680}'
    || '\U{2000}' <= c <= '\U{200A}'
    || c == '\U{2028}'
    || c == '\U{2029}'
    || c == '\U{202F}'
    || c == '\U{205F}'
    || c == '\U{3000}'
  }

  predicate AllSpace(s: string) {
    forall i :: 0 <= i < |s| ==> IsSpace(s[i])
  }

  /** Neither end of `s` is whitespace: what `strip` leaves. */
  predicate IsTrimmed(s: string) {
    s == [] || (!IsSpace(s[0]) && !IsSpace(s[|s| - 1]))
  }

  lemma AllSpaceAppend(a: string, b: string)
    ensures AllSpace(a + b) <==> AllSpace(a) && AllSpace(b)
  {
    if AllSpace(a + b) {
      assert forall i :: 0 <= i < |a| ==> a[i] == (a + b)[i];
      assert forall i :: 0 <= i < |b| ==> b[i] == (a + b)[|a| + i];
    }
  }

  /** Number of leading whitespace characters. */
  function LeadingSpace(s: string): (n: nat)
    ensures n <= |s|
  {
    if s == [] || !IsSpace(s[0]) then 0 else 1 + LeadingSpace(s[1..])
  }

  /** Number of trailing whitespace characters. */
  function TrailingSpace(s: string): (n: nat)
    ensures n <= |s|
  {
    if s == [] || !IsSpace(s[|s| - 1]) then 0 else 1 + TrailingSpace(s[..|s| - 1])
  }

  /** The leading whitespace is all whitespace, and it ends at a character that is not. */
  lemma {:induction false} LeadingSpaceSpec(s: string)
    ensures AllSpace(s[..LeadingSpace(s)])
    ensures LeadingSpace(s) < |s| ==> !IsSpace(s[LeadingSpace(s)])
  {
    if s != [] && IsSpace(s[0]) {
      LeadingSpaceSpec(s[1..]);
      var n := LeadingSpace(s[1..]);
      var p, q := s[..n + 1], s[1..][..n];
      forall i | 0 <= i < |p| ensures IsSpace(p[i]) {
        if i > 0 {
          assert p[i] == s[i] == s[1..][i - 1] == q[i - 1];
        } else {
          assert p[i] == s[0];
        }
      }
    }
  }

  /** The trailing whitespace is all whitespace, and it starts after a character that is not. */
  lemma {:induction false} TrailingSpaceSpec(s: string)
    ensures AllSpace(s[|s| - TrailingSpace(s)..])
    ensures TrailingSpace(s) < |s| ==> !IsSpace(s[|s| - 1 - TrailingSpace(s)])
  {
    if s != [] && IsSpace(s[|s| - 1]) {
      var init := s[..|s| - 1];
      TrailingSpaceSpec(init);
      var n := TrailingSpace(init);
      var p, q := s[|s| - (n + 1)..], init[|init| - n..];
      forall i | 0 <= i < |p| ensures IsSpace(p[i]) {
        if i < n {
          assert p[i] == s[|s| - (n + 1) + i] == init[|init| - n + i] == q[i];
        } else {
          assert p[i] == s[|s| - 1];
        }
      }
    }
  }

  /** `s.strip()`: the result is trimmed (StripSpec says what else it is). */
  function Strip(s: string): (r: string)
    ensures IsTrimmed(r) && |r| <= |s|
  {
    var n := LeadingSpace(s);
    var rest := s[n..];
    var t := TrailingSpace(rest);
    LeadingSpaceSpec(s);
    TrailingSpaceSpec(rest);
    assert rest != [] ==> !IsSpace(rest[0]);
    rest[..|rest| - t]
  }

  /**
   * `s` splits into a whitespace prefix, `Strip(s)` and a whitespace suffix
   * (StripUnique shows that this pins the result down).
   */
  lemma StripSpec(s: string)
    ensures LeadingSpace(s) + |Strip(s)| <= |s|
    ensures s == s[..LeadingSpace(s)] + Strip(s) + s[LeadingSpace(s) + |Strip(s)|..]
    ensures AllSpace(s[LeadingSpace(s) + |Strip(s)|..])
  {
    StripSlice(s);
    SuffixParts(s, LeadingSpace(s), |Strip(s)|);
  }

  /** `strip` keeps a slice of its input, and what follows that slice is whitespace. */
  lemma StripSlice(s: string)
    ensures LeadingSpace(s) + |Strip(s)| <= |s|
    ensures Strip(s) == s[LeadingSpace(s)..LeadingSpace(s) + |Strip(s)|]
    ensures AllSpace(s[LeadingSpace(s) + |Strip(s)|..])
  {
    var n := LeadingSpace(s);
    var rest := s[n..];
    var m := |rest| - TrailingSpace(rest);
    TrailingSpaceSpec(rest);
    SuffixParts(s, n, m);
  }

  /** Concatenation is associative. */
  lemma Assoc<T>(x: seq<T>, y: seq<T>, z: seq<T>)
    ensures x + (y + z) == x + y + z
  {
  }

  /** Concatenation regrouped: one part in front of three others. */
  lemma Regroup<T>(x: seq<T>, y: seq<T>, m: seq<T>, z: seq<T>)
    ensures x + (y + m + z) == x + y + m + z
  {
  }

  lemma SuffixParts<T>(s: seq<T>, n: nat, m: nat)
    requires n + m <= |s|
    ensures s[n..][..m] == s[n..n + m] && s[n..][m..] == s[n + m..]
    ensures s == s[..n] + s[n..n + m] + s[n + m..]
  {
  }

  /** Whatever whitespace surrounds a trimmed string, `strip` gives back exactly that string. */
  lemma StripUnique(a: string, m: string, b: string)
    requires AllSpace(a) && AllSpace(b) && IsTrimmed(m)
    ensures Strip(a + m + b) == m
  {
    var s := a + m + b;
    if m == [] {
      assert AllSpace(s) by {
        assert forall i :: 0 <= i < |s| ==> s[i] == if i < |a| then a[i] else b[i - |a|];
      }
    } else {
      LeadingSpaceAt(s, |a|);
      var rest := s[|a|..];
      assert rest == m + b;
      TrailingSpaceAt(rest, |b|);
    }
  }

  lemma LeadingSpaceAt(s: string, k: nat)
    requires k < |s| && AllSpace(s[..k]) && !IsSpace(s[k])
    ensures LeadingSpace(s) == k
    decreases k
  {
    if k > 0 {
      assert IsSpace(s[..k][0]);
      assert s[1..][..k - 1] == s[..k][1..];
      LeadingSpaceAt(s[1..], k - 1);
    }
  }

  lemma TrailingSpaceAt(s: string, k: nat)
    requires k < |s| && AllSpace(s[|s| - k..]) && !IsSpace(s[|s| - 1 - k])
    ensures TrailingSpace(s) == k
    decreases k
  {
    if k > 0 {
      assert IsSpace(s[|s| - k..][k - 1]);
      var init := s[..|s| - 1];
      assert init[|init| - (k - 1)..] == s[|s| - k..|s| - 1] == s[|s| - k..][..k - 1];
      TrailingSpaceAt(init, k - 1);
    }
  }

  /** A trimmed string is its own `strip`. */
  lemma StripTrimmed(m: string)
    requires IsTrimmed(m)
    ensures Strip(m) == m
  {
    StripUnique([], m, []);
    assert [] + m + [] == m;
  }

  /** `pat` occurs in `s` starting at index `i`. */
  predicate OccursAt(s: string, pat: string, i: int) {
    0 <= i && i + |pat| <= |s| && s[i..i + |pat|] == pat
  }

  /** `s.find(pat, start)`: the first occurrence at or after `start`, or -1. */
  function Find(s: string, pat: string, start: nat): (r: int)
    ensures r == -1 || (start <= r && OccursAt(s, pat, r))
    ensures forall k :: start <= k && (r == -1 || k < r) ==> !OccursAt(s, pat, k)
    decreases |s| - start
  {
    if start + |pat| > |s| then -1
    else if s[start..start + |pat|] == pat then start
    else Find(s, pat, start + 1)
  }

  /** `sep.join(parts)`. */
  function Join(parts: seq<string>, sep: string): string {
    if |parts| == 0 then ""
    else if |parts| == 1 then parts[0]
    else parts[0] + sep + Join(parts[1..], sep)
  }

  /** Joining one more part adds the separator and that part at the end. */
  lemma {:induction false} JoinSnoc(xs: seq<string>, x: string, sep: string)
    requires xs != []
    ensures Join(xs + [x], sep) == Join(xs, sep) + sep + x
  {
    if |xs| > 1 {
      assert (xs + [x])[1..] == xs[1..] + [x];
      JoinSnoc(xs[1..], x, sep);
    }
  }

  /** Joining non-empty parts gives the empty string only when there are no parts. */
  lemma {:induction false} JoinNonEmpty(xs: seq<string>, sep: string)
    requires forall k :: 0 <= k < |xs| ==> xs[k] != ""
    ensures Join(xs, sep) == "" <==> xs == []
  {
    if |xs| > 1 {
      assert |Join(xs, sep)| >= |xs[0]| > 0;
    }
  }

  /** Non-blank trimmed lines joined by newlines are trimmed, and empty only when there are none. */
  lemma {:induction false} JoinLines(xs: seq<string>)
    requires forall i :: 0 <= i < |xs| ==> xs[i] != "" && IsTrimmed(xs[i])
    ensures IsTrimmed(Join(xs, "\n"))
    ensures Join(xs, "\n") == "" <==> xs == []
    ensures xs != [] ==> Join(xs, "\n")[0] == xs[0][0]
  {
    if |xs| > 1 {
      JoinLines(xs[1..]);
      var rest := Join(xs[1..], "\n");
      assert Join(xs, "\n") == xs[0] + "\n" + rest;
      assert Join(xs, "\n")[|Join(xs, "\n")| - 1] == rest[|rest| - 1];
    }
  }

  /** Index of the first `c` in `s`, or `|s|` when there is none. */
  function IndexOf(s: string, c: char): (i: nat)
    ensures i <= |s| && c !in s[..i]
    ensures i < |s| ==> s[i] == c
  {
    if s == [] then 0
    else if s[0] == c then 0
    else
      var k := IndexOf(s[1..], c);
      assert s[..k + 1] == [s[0]] + s[1..][..k];
      1 + k
  }

  /** `s.split(c)` for a one-character separator: the pieces between the separators. */
  function Split(s: string, c: char): (parts: seq<string>)
    ensures |parts| >= 1
    ensures forall k :: 0 <= k < |parts| ==> c !in parts[k]
    ensures Join(parts, [c]) == s
    decreases |s|
  {
    var i := IndexOf(s, c);
    if i == |s| then
      assert s[..i] == s;
      [s]
    else
      var rest := Split(s[i + 1..], c);
      assert s == s[..i] + [c] + s[i + 1..];
      [s[..i]] + rest
  }

  /** Splitting a join on a separator that no part contains gives the parts back. */
  lemma {:induction false} SplitJoin(parts: seq<string>, c: char)
    requires |parts| >= 1
    requires forall k :: 0 <= k < |parts| ==> c !in parts[k]
    ensures Split(Join(parts, [c]), c) == parts
  {
    var s := Join(parts, [c]);
    if |parts| == 1 {
      IndexOfAbsent(s, c);
    } else {
      var tail := Join(parts[1..], [c]);
      assert s == parts[0] + [c] + tail;
      IndexOfAbsent(parts[0], c);
      IndexOfAfter(parts[0], c, tail);
      AroundSeparator(parts[0], c, tail);
      SplitAt(s, c);
      SplitJoin(parts[1..], c);
      assert parts == [parts[0]] + parts[1..];
    }
  }

  lemma {:induction false} IndexOfAbsent(s: string, c: char)
    requires c !in s
    ensures IndexOf(s, c) == |s|
  {
    if s != [] {
      assert c !in s[1..];
      IndexOfAbsent(s[1..], c);
    }
  }

  /** The first `c` in `a + [c] + b` is the one after `a`, when `a` has none. */
  lemma {:induction false} IndexOfAfter(a: string, c: char, b: string)
    requires IndexOf(a, c) == |a|
    ensures IndexOf(a + [c] + b, c) == |a|
  {
    if a != [] {
      assert (a + [c] + b)[1..] == a[1..] + [c] + b;
      assert IndexOf(a[1..], c) == |a| - 1;
      IndexOfAfter(a[1..], c, b);
    }
  }

  lemma AroundSeparator<T>(a: seq<T>, x: T, b: seq<T>)
    ensures (a + [x] + b)[..|a|] == a && (a + [x] + b)[|a| + 1..] == b
  {
  }

  /** Where `c` occurs, the split is the text before its first copy, then the split of the rest. */
  lemma SplitAt(s: string, c: char)
    requires IndexOf(s, c) < |s|
    ensures Split(s, c) == [s[..IndexOf(s, c)]] + Split(s[IndexOf(s, c) + 1..], c)
  {
  }

  /**
   * `s.replace(pat, rep)`: scan left to right, replace each occurrence and resume
   * after it, so occurrences never overlap.
   */
  function Replace(s: string, pat: string, rep: string): (r: string)
    requires pat != []
    ensures |rep| <= |pat| ==> |r| <= |s|
    decreases |s|
  {
    if |s| < |pat| then s
    else if s[..|pat|] == pat then rep + Replace(s[|pat|..], pat, rep)
    else [s[0]] + Replace(s[1..], pat, rep)
  }

  /** Replacing a character by nothing deletes every copy of it and keeps every other character. */
  lemma {:induction false} ReplaceDeletes(s: string, c: char)
    ensures c !in Replace(s, [c], [])
    ensures multiset(Replace(s, [c], [])) == multiset(s)[c := 0]
    decreases |s|
  {
    if s == [] {
    } else {
      ReplaceDeletes(s[1..], c);
      assert s == [s[0]] + s[1..];
      assert s[..1] == [s[0]];
    }
  }

  /** The string with every copy of `c` dropped and the other characters kept in order. */
  function Delete(s: string, c: char): (r: string)
    ensures c !in r && |r| <= |s|
  {
    if s == [] then []
    else (if s[0] == c then [] else [s[0]]) + Delete(s[1..], c)
  }

  /** `replace(c, "")` is deleting every copy of `c`. */
  lemma {:induction false} ReplaceIsDelete(s: string, c: char)
    ensures Replace(s, [c], []) == Delete(s, c)
    decreases |s|
  {
    if s != [] {
      assert s[..1] == [s[0]];
      ReplaceIsDelete(s[1..], c);
    }
  }

  /** On a string without the character, deleting it changes nothing. */
  lemma {:induction false} ReplaceAbsent(s: string, c: char)
    requires c !in s
    ensures Replace(s, [c], []) == s
    decreases |s|
  {
    if s != [] {
      assert s[..1] == [s[0]];
      ReplaceAbsent(s[1..], c);
      assert s == [s[0]] + s[1..];
    }
  }

  /** Deleting a character commutes with concatenation. */
  lemma {:induction false} ReplaceCharConcat(a: string, b: string, c: char)
    ensures Replace(a + b, [c], []) == Replace(a, [c], []) + Replace(b, [c], [])
    decreases |a|
  {
    if a != [] {
      assert (a + b)[..1] == a[..1] == [a[0]];
      assert (a + b)[1..] == a[1..] + b;
      ReplaceCharConcat(a[1..], b, c);
    } else {
      assert a + b == b;
    }
  }

  function DigitChar(d: nat): (c: char)
    requires d < 10
    ensures '0' <= c <= '9' && c as int - '0' as int == d
  {
    ('0' as int + d) as char
  }

  predicate AllDigits(s: string) {
    forall i :: 0 <= i < |s| ==> '0' <= s[i] <= '9'
  }

  /** `str(n)` for a non-negative integer: decimal digits without leading zeros. */
  function NatToString(n: nat): (r: string)
    ensures |r| >= 1 && AllDigits(r)
    ensures r[0] == '0' ==> n == 0
  {
    if n < 10 then [DigitChar(n)] else NatToString(n / 10) + [DigitChar(n % 10)]
  }

  /** The number a string of decimal digits denotes. */
  function DigitsValue(s: string): nat
    requires AllDigits(s)
  {
    if s == [] then 0
    else DigitsValue(s[..|s| - 1]) * 10 + (s[|s| - 1] as int - '0' as int)
  }

  /** Reading the digits of `str(n)` back gives `n`. */
  lemma {:induction false} NatToStringRoundTrip(n: nat)
    ensures DigitsValue(NatToString(n)) == n
  {
    if n >= 10 {
      NatToStringRoundTrip(n / 10);
      var s := NatToString(n);
      assert s[..|s| - 1] == NatToString(n / 10);
    }
  }

  /** Different numbers render differently. */
  lemma NatToStringInjective(m: nat, n: nat)
    requires NatToString(m) == NatToString(n)
    ensures m == n
  {
    NatToStringRoundTrip(m);
    NatToStringRoundTrip(n);
  }
}
