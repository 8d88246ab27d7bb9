/**
  The few Python `str` operations the exporters and scoring rules rely on,
  written out over `seq<char>`: `strip`, `lower`, `startswith`, `endswith`,
  the `in` substring test, `split` on one separator character and `replace`.
 */
module Strings {
  import opened Seqs

  /** Python's `str.isspace` for one character (the full set of characters
      that `str.strip()` with no argument removes). */
  predicate IsSpace(c: char) {
    || c == ' '
    || ('\t' <= c <= '\r')
    || ('\U{1C}' <= c <= '\U{1F}')
    || c == '\U{85}' || c == '\U{A0}' || c == '\U{1680}'
    || ('\U{2000}' <= c <= '\U{200A}')
    || c == '\U{2028}' || c == '\U{2029}' || c == '\U{202F}'
    || c == '\U{205F}' || c == '\U{3000}'
  }

  /** `s.lstrip()`: the suffix of `s` after its leading whitespace. */
  function TrimStart(s: string): (r: string)
    ensures |r| <= |s| && r == s[|s| - |r|..]
    ensures r == [] || !IsSpace(r[0])
    ensures forall k :: 0 <= k < |s| - |r| ==> IsSpace(s[k])
  {
    if |s| > 0 && IsSpace(s[0]) then TrimStart(s[1..]) else s
  }

  /** `s.rstrip()`: the prefix of `s` before its trailing whitespace. */
  function TrimEnd(s: string): (r: string)
    ensures |r| <= |s| && r == s[..|r|]
    ensures r == [] || !IsSpace(r[|r| - 1])
    ensures forall k :: |r| <= k < |s| ==> IsSpace(s[k])
  {
    if |s| > 0 && IsSpace(s[|s| - 1]) then TrimEnd(s[..|s| - 1]) else s
  }

  /** `s.strip()`: neither end of the result is whitespace. */
  function Strip(s: string): (r: string)
    ensures |r| <= |s|
    ensures r == [] || (!IsSpace(r[0]) && !IsSpace(r[|r| - 1]))
  {
    TrimEnd(TrimStart(s))
  }

  /** Every character of `s` outside positions `lo..hi` is whitespace. */
  predicate SpaceOutside(s: string, lo: int, hi: int) {
    forall k :: 0 <= k < |s| && !(lo <= k < hi) ==> IsSpace(s[k])
  }

  /** `strip` cuts whitespace from both ends and nothing else: the result is
      the slice of `s` that starts after the leading whitespace (character
      `k` of the result is character `a + k` of `s`), and every character of
      `s` outside that slice is whitespace. */
  lemma StripSlice(s: string)
    ensures var a := |s| - |TrimStart(s)|;
      && a + |Strip(s)| <= |s|
      && (forall k :: 0 <= k < |Strip(s)| ==> Strip(s)[k] == s[a + k])
      && SpaceOutside(s, a, a + |Strip(s)|)
  {
    StripIsSlice(s);
    StripCutsSpace(s);
  }

  lemma StripIsSlice(s: string)
    ensures |s| - |TrimStart(s)| + |Strip(s)| <= |s|
    ensures forall k :: 0 <= k < |Strip(s)| ==> Strip(s)[k] == s[|s| - |TrimStart(s)| + k]
  {
    var t := TrimStart(s);
    PrefixOfSuffix(s, t, TrimEnd(t));
  }

  lemma StripCutsSpace(s: string)
    ensures SpaceOutside(s, |s| - |TrimStart(s)|, |s| - |TrimStart(s)| + |Strip(s)|)
  {
    var t := TrimStart(s);
    TrimmedSpaceOutside(s, t, TrimEnd(t));
  }

  /** Whitespace before a suffix `t` of `s` and after a prefix `r` of `t`
      leaves only whitespace outside the slice `r`. */
  lemma TrimmedSpaceOutside(s: string, t: string, r: string)
    requires |t| <= |s| && t == s[|s| - |t|..]
    requires |r| <= |t|
    requires forall k :: 0 <= k < |s| - |t| ==> IsSpace(s[k])
    requires forall k :: |r| <= k < |t| ==> IsSpace(t[k])
    ensures SpaceOutside(s, |s| - |t|, |s| - |t| + |r|)
  {
    var a := |s| - |t|;
    forall k | a + |r| <= k < |s| ensures IsSpace(s[k]) {
      assert t[k - a] == s[k];
    }
  }

  /** Stripping removes whitespace only: every other character is kept. */
  lemma StripKeeps(s: string, c: char)
    requires !IsSpace(c)
    ensures c in Strip(s) <==> c in s
  {
    TrimStartKeeps(s, c);
    TrimEndKeeps(TrimStart(s), c);
  }

  lemma TrimStartKeeps(s: string, c: char)
    requires !IsSpace(c)
    ensures c in TrimStart(s) <==> c in s
  {
    var t := TrimStart(s);
    var n := |s| - |t|;
    if c in t {
      var k :| 0 <= k < |t| && t[k] == c;
      assert s[n + k] == c;
    }
    if c in s {
      var k :| 0 <= k < |s| && s[k] == c;
      assert !IsSpace(s[k]);
      assert k >= n;
      assert t[k - n] == c;
    }
  }

  lemma TrimEndKeeps(s: string, c: char)
    requires !IsSpace(c)
    ensures c in TrimEnd(s) <==> c in s
  {
    var t := TrimEnd(s);
    if c in t {
      var k :| 0 <= k < |t| && t[k] == c;
      assert s[k] == c;
    }
    if c in s {
      var k :| 0 <= k < |s| && s[k] == c;
      assert !IsSpace(s[k]);
      assert k < |t|;
      assert t[k] == c;
    }
  }

  /** A stripped string never begins with whitespace, so it never begins with
      two spaces. */
  lemma StripNeverIndented(s: string)
    ensures !StartsWith(Strip(s), "  ")
  {
  }

  /** `s.strip() == ""` exactly when `s` is whitespace only. */
  lemma StripEmptyIff(s: string)
    ensures Strip(s) == [] <==> forall k :: 0 <= k < |s| ==> IsSpace(s[k])
  {
    forall k | 0 <= k < |s| && !IsSpace(s[k]) ensures s[k] in Strip(s) {
      StripKeeps(s, s[k]);
    }
  }

  function LowerChar(c: char): char {
    if 'A' <= c <= 'Z' then (c as int + 32) as char else c
  }

  /** `s.lower()`, for the ASCII letters. */
  function Lower(s: string): (r: string)
    ensures |r| == |s|
    ensures forall i :: 0 <= i < |s| ==> r[i] == LowerChar(s[i])
  {
    seq(|s|, i requires 0 <= i < |s| => LowerChar(s[i]))
  }

  predicate StartsWith(s: string, prefix: string) {
    |prefix| <= |s| && s[..|prefix|] == prefix
  }

  predicate EndsWith(s: string, suffix: string) {
    |suffix| <= |s| && s[|s| - |suffix|..] == suffix
  }

  /** Python's `sub in s`. */
  predicate Contains(s: string, sub: string)
    decreases |s|
  {
    StartsWith(s, sub) || (|s| > 0 && Contains(s[1..], sub))
  }

  /** `sub` sits in `s` at position `i`. */
  predicate OccursAt(s: string, sub: string, i: int) {
    0 <= i <= |s| - |sub| && s[i..i + |sub|] == sub
  }

  /** `Contains` agrees with the usual "occurs at some position" reading. */
  lemma {:induction false} ContainsIff(s: string, sub: string)
    ensures Contains(s, sub) <==> exists i :: OccursAt(s, sub, i)
    decreases |s|
  {
    if StartsWith(s, sub) {
      assert OccursAt(s, sub, 0);
    } else if |s| > 0 {
      ContainsIff(s[1..], sub);
      if Contains(s[1..], sub) {
        var i :| OccursAt(s[1..], sub, i);
        assert s[1..][i..i + |sub|] == s[i + 1..i + 1 + |sub|];
        assert OccursAt(s, sub, i + 1);
      } else {
        forall i | 0 < i <= |s| - |sub| ensures !OccursAt(s, sub, i) {
          assert s[1..][i - 1..i - 1 + |sub|] == s[i..i + |sub|];
          assert !OccursAt(s[1..], sub, i - 1);
        }
      }
    }
  }

  /** Anything that contains `s` contains what `s` starts with. */
  lemma {:induction false} ContainsOfPrefix(s: string, sub: string)
    requires StartsWith(s, sub)
    ensures Contains(s, sub)
  {
  }

  /** Anything that contains `s` contains the contents of `s`. */
  lemma {:induction false} ContainsAppend(a: string, b: string, sub: string)
    requires Contains(b, sub)
    ensures Contains(a + b, sub)
    decreases |a|
  {
    if |a| == 0 {
      assert a + b == b;
    } else {
      ContainsAppend(a[1..], b, sub);
      assert (a + b)[1..] == a[1..] + b;
    }
  }

  /** The position of the first `c` in `s`. */
  function IndexOf(s: string, c: char): (i: nat)
    requires c in s
    ensures i < |s| && s[i] == c && c !in s[..i]
  {
    if s[0] == c then 0 else 1 + IndexOf(s[1..], c)
  }

  /** How many times `c` occurs in `s`. */
  function Count(s: string, c: char): nat {
    if |s| == 0 then 0 else (if s[0] == c then 1 else 0) + Count(s[1..], c)
  }

  /** `sep.join(parts)` for a one-character separator. */
  function Join(parts: seq<string>, sep: char): string {
    if |parts| == 0 then ""
    else if |parts| == 1 then parts[0]
    else parts[0] + [sep] + Join(parts[1..], sep)
  }

  /** `s.split(sep)`: the pieces between the separators; there is always at
      least one, and no piece holds the separator. */
  function Split(s: string, sep: char): (parts: seq<string>)
    ensures |parts| >= 1
    ensures forall k :: 0 <= k < |parts| ==> sep !in parts[k]
    decreases |s|
  {
    if sep !in s then [s]
    else
      var i := IndexOf(s, sep);
      [s[..i]] + Split(s[i + 1..], sep)
  }

  /** Joining the pieces of a split with the separator gives back the
      original string. */
  lemma {:induction false} SplitJoin(s: string, sep: char)
    ensures Join(Split(s, sep), sep) == s
    decreases |s|
  {
    if sep in s {
      var i := IndexOf(s, sep);
      var rest := Split(s[i + 1..], sep);
      SplitJoin(s[i + 1..], sep);
      SplitStep(s, sep);
      calc {
        Join(Split(s, sep), sep);
        Join([s[..i]] + rest, sep);
        { JoinCons(s[..i], rest, sep); }
        s[..i] + [sep] + Join(rest, sep);
        s[..i] + [sep] + s[i + 1..];
        { assert s == s[..i] + [sep] + s[i + 1..]; }
        s;
      }
    }
  }

  /** Joining a piece in front of at least one other adds it and one
      separator. */
  lemma JoinCons(a: string, rest: seq<string>, sep: char)
    requires |rest| >= 1
    ensures Join([a] + rest, sep) == a + [sep] + Join(rest, sep)
  {
    var parts := [a] + rest;
    assert parts[0] == a;
    assert parts[1..] == rest;
  }

  lemma {:induction false} CountSplit(s: string, sep: char)
    ensures |Split(s, sep)| == Count(s, sep) + 1
    decreases |s|
  {
    if sep !in s {
      CountAbsent(s, sep);
    } else {
      var i := IndexOf(s, sep);
      CountSplit(s[i + 1..], sep);
      CountConcat(s[..i], s[i..], sep);
      assert s == s[..i] + s[i..];
      CountAbsent(s[..i], sep);
      assert s[i..][1..] == s[i + 1..];
    }
  }

  lemma {:induction false} CountAbsent(s: string, c: char)
    requires c !in s
    ensures Count(s, c) == 0
    decreases |s|
  {
    if |s| > 0 {
      assert s[1..][..] == s[1..];
      assert forall x :: x in s[1..] ==> x in s;
      CountAbsent(s[1..], c);
    }
  }

  lemma {:induction false} CountConcat(a: string, b: string, c: char)
    ensures Count(a + b, c) == Count(a, c) + Count(b, c)
    decreases |a|
  {
    if |a| == 0 {
      assert a + b == b;
    } else {
      assert (a + b)[1..] == a[1..] + b;
      CountConcat(a[1..], b, c);
    }
  }

  /** A string of two or more characters that starts and ends with `c`
      holds at least two of them. */
  lemma CountBothEnds(s: string, c: char)
    requires |s| >= 2 && s[0] == c && s[|s| - 1] == c
    ensures Count(s, c) >= 2
  {
    var last := [s[|s| - 1]];
    assert s == s[..|s| - 1] + last;
    CountConcat(s[..|s| - 1], last, c);
    assert last[1..] == [];
    assert s[..|s| - 1][0] == c;
  }

  /** Python's `s.replace(pat, rep)` for a non-empty pattern: occurrences
      are found left to right and do not overlap. */
  function ReplaceAll(s: string, pat: string, rep: string): string
    requires |pat| > 0
    decreases |s|
  {
    if |s| < |pat| then s
    else if s[..|pat|] == pat then rep + ReplaceAll(s[|pat|..], pat, rep)
    else [s[0]] + ReplaceAll(s[1..], pat, rep)
  }

  /** Deleting one character with `replace(c, '')` keeps every other
      character and drops every `c`. */
  lemma {:induction false} RemoveCharContents(s: string, c: char, x: char)
    ensures x in ReplaceAll(s, [c], "") <==> x in s && x != c
    decreases |s|
  {
    if |s| >= 1 {
      RemoveCharContents(s[1..], c, x);
      assert s == [s[0]] + s[1..];
      if s[..1] == [c] {
        assert ReplaceAll(s, [c], "") == "" + ReplaceAll(s[1..], [c], "");
      }
    }
  }

  /** `replace` with a pattern that does not occur changes nothing. */
  lemma {:induction false} ReplaceAbsent(s: string, pat: string, rep: string)
    requires |pat| > 0
    requires !Contains(s, pat)
    ensures ReplaceAll(s, pat, rep) == s
    decreases |s|
  {
    if |s| >= |pat| {
      assert s[..|pat|] != pat;
      ReplaceAbsent(s[1..], pat, rep);
    }
  }

  /** The first separator of `a + b` is the first one of `a`, or comes
      after all of `a`. */
  lemma {:induction false} IndexOfConcat(a: string, b: string, c: char)
    requires c in a + b
    ensures c in a ==> IndexOf(a + b, c) == IndexOf(a, c)
    ensures c !in a ==> IndexOf(a + b, c) == |a| + IndexOf(b, c)
    decreases |a|
  {
    if |a| > 0 {
      assert (a + b)[1..] == a[1..] + b;
      if a[0] != c {
        assert c in a[1..] + b;
        assert c in a ==> c in a[1..];
        assert c in a[1..] ==> c in a;
        IndexOfConcat(a[1..], b, c);
      }
    } else {
      assert a + b == b;
    }
  }

  /** The last piece of a split is what follows the last separator. */
  lemma SplitLast(a: string, sep: char, b: string)
    requires sep !in b
    ensures var parts := Split(a + [sep] + b, sep); parts[|parts| - 1] == b
  {
    SplitConcat(a, sep, b);
    assert Split(b, sep) == [b];
  }

  /** `text.split('\n')`: the lines every line-oriented parser walks. */
  function Lines(text: string): seq<string> {
    Split(text, '\n')
  }

  /** Strip every piece, keeping their order (`[c.strip() for c in parts]`). */
  function StripAll(parts: seq<string>): (r: seq<string>)
    ensures |r| == |parts|
    ensures forall k :: 0 <= k < |parts| ==> r[k] == Strip(parts[k])
  {
    seq(|parts|, k requires 0 <= k < |parts| => Strip(parts[k]))
  }

  /** One step of `Split`: the piece before the first separator, then the
      split of the rest. */
  lemma SplitStep(s: string, sep: char)
    requires sep in s
    ensures Split(s, sep) == [s[..IndexOf(s, sep)]] + Split(s[IndexOf(s, sep) + 1..], sep)
  {
  }

  /** Splitting at a separator the caller placed splits each side on its
      own: `(a + sep + b).split(sep) == a.split(sep) + b.split(sep)`. */
  lemma {:induction false} SplitConcat(a: string, sep: char, b: string)
    ensures Split(a + [sep] + b, sep) == Split(a, sep) + Split(b, sep)
    decreases |a|
  {
    if sep in a {
      var i := IndexOf(a, sep);
      var a' := a[i + 1..];
      SplitConcat(a', sep, b);
      calc {
        Split(a + [sep] + b, sep);
        { SplitAtFirstOfLeft(a, sep, b); }
        [a[..i]] + Split(a' + [sep] + b, sep);
        [a[..i]] + (Split(a', sep) + Split(b, sep));
        ([a[..i]] + Split(a', sep)) + Split(b, sep);
        { SplitStep(a, sep); }
        Split(a, sep) + Split(b, sep);
      }
    } else {
      SplitAtPlaced(a, sep, b);
    }
  }

  /** When `a` holds the separator, the split of `a + sep + b` cuts first
      where the split of `a` does. */
  lemma SplitAtFirstOfLeft(a: string, sep: char, b: string)
    requires sep in a
    ensures var i := IndexOf(a, sep);
      Split(a + [sep] + b, sep) == [a[..i]] + Split(a[i + 1..] + [sep] + b, sep)
  {
    var s := a + [sep] + b;
    var i := IndexOf(a, sep);
    assert s == a + ([sep] + b);
    IndexOfConcat(a, [sep] + b, sep);
    assert IndexOf(s, sep) == i;
    assert s[..i] == a[..i];
    assert s[i + 1..] == a[i + 1..] + [sep] + b;
    SplitStep(s, sep);
  }

  /** When `a` has no separator, the split of `a + sep + b` is `a` and then
      the split of `b`. */
  lemma SplitAtPlaced(a: string, sep: char, b: string)
    requires sep !in a
    ensures Split(a + [sep] + b, sep) == Split(a, sep) + Split(b, sep)
  {
    var s := a + [sep] + b;
    assert s == a + ([sep] + b);
    IndexOfConcat(a, [sep] + b, sep);
    assert IndexOf([sep] + b, sep) == 0;
    assert IndexOf(s, sep) == |a|;
    assert s[..|a|] == a;
    assert s[|a| + 1..] == b;
    SplitStep(s, sep);
  }

  /** Splitting a join of separator-free pieces gives the pieces back. */
  lemma {:induction false} JoinSplit(parts: seq<string>, sep: char)
    requires |parts| >= 1
    requires forall k :: 0 <= k < |parts| ==> sep !in parts[k]
    ensures Split(Join(parts, sep), sep) == parts
    decreases |parts|
  {
    if |parts| == 1 {
      assert sep !in parts[0];
    } else {
      var rest := parts[1..];
      assert forall k :: 0 <= k < |rest| ==> rest[k] == parts[k + 1];
      JoinSplit(rest, sep);
      assert sep !in parts[0];
      calc {
        Split(Join(parts, sep), sep);
        Split(parts[0] + [sep] + Join(rest, sep), sep);
        { SplitConcat(parts[0], sep, Join(rest, sep)); }
        Split(parts[0], sep) + Split(Join(rest, sep), sep);
        [parts[0]] + rest;
        parts;
      }
    }
  }

  /** Every character of a piece is a character of the join. */
  lemma {:induction false} JoinContains(parts: seq<string>, sep: char, j: nat, x: char)
    requires j < |parts| && x in parts[j]
    ensures x in Join(parts, sep)
    decreases |parts|
  {
    if |parts| >= 2 && j > 0 {
      JoinContains(parts[1..], sep, j - 1, x);
    }
  }

  /** A character that is neither the separator nor in any piece is not in
      the join. */
  lemma {:induction false} JoinExcludes(parts: seq<string>, sep: char, x: char)
    requires x != sep
    requires forall k :: 0 <= k < |parts| ==> x !in parts[k]
    ensures x !in Join(parts, sep)
    decreases |parts|
  {
    if |parts| >= 2 {
      JoinExcludes(parts[1..], sep, x);
    }
  }
}
