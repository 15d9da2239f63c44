/** The part of Python's `str` that the pipeline relies on: `isspace`, `split()`,
    `split(sep)`, `" ".join`, `strip()` and `replace`, with the exact Python
    semantics (leftmost, non-overlapping replacement; `split()` drops empty
    words while `split(sep)` keeps them). */
module PyStr {

  /** `c.isspace()` in Python 3. */
  predicate IsSpace(c: char) {
    || c == ' '
    || ('\t' <= c <= '\r')
    || ('\U{1c}' <= c <= '\U{1f}')
    || c == '\U{85}' || c == '\U{a0}' || c == '\U{1680}'
    || ('\U{2000}' <= c <= '\U{200a}')
    || c == '\U{2028}' || c == '\U{2029}' || c == '\U{202f}' || c == '\U{205f}' || c == '\U{3000}'
  }

  predicate NoSpace(s: string) {
    forall i :: 0 <= i < |s| ==> !IsSpace(s[i])
  }

  /** What `str.split()` can return as one element. */
  predicate IsWord(w: string) {
    |w| > 0 && NoSpace(w)
  }

  predicate AllWords(ws: seq<string>) {
    forall k :: 0 <= k < |ws| ==> IsWord(ws[k])
  }

  /** `sep.join(parts)`. */
  function Join(sep: string, parts: seq<string>): string {
    if |parts| == 0 then ""
    else if |parts| == 1 then parts[0]
    else parts[0] + sep + Join(sep, parts[1..])
  }

  /** Concatenation of a sequence of sequences, in order. */
  function Flatten<T>(parts: seq<seq<T>>): seq<T> {
    if parts == [] then [] else parts[0] + Flatten(parts[1..])
  }

  lemma {:induction false} FlattenAppend<T>(a: seq<seq<T>>, b: seq<seq<T>>)
    ensures Flatten(a + b) == Flatten(a) + Flatten(b)
  {
    if a != [] {
      assert (a + b)[0] == a[0];
      assert (a + b)[1..] == a[1..] + b;
      FlattenAppend(a[1..], b);
      assert Flatten(a + b) == a[0] + Flatten(a[1..] + b);
    } else {
      assert a + b == b;
    }
  }

  // ---------------------------------------------------------------------------
  // str.split()

  /** Length of the run of non-whitespace characters at the start of `s`. */
  function WordPrefix(s: string): (n: nat)
    ensures n <= |s|
    ensures forall i :: 0 <= i < n ==> !IsSpace(s[i])
    ensures n < |s| ==> IsSpace(s[n])
  {
    if s == [] || IsSpace(s[0]) then 0 else 1 + WordPrefix(s[1..])
  }

  /** `s.split()`: the maximal runs of non-whitespace characters, in order. */
  function Split(s: string): (words: seq<string>)
    ensures AllWords(words)
    decreases |s|
  {
    if s == [] then []
    else if IsSpace(s[0]) then Split(s[1..])
    else
      var n := WordPrefix(s);
      [s[..n]] + Split(s[n..])
  }

  lemma {:induction false} WordPrefixOf(w: string, rest: string)
    requires NoSpace(w)
    requires rest == [] || IsSpace(rest[0])
    ensures WordPrefix(w + rest) == |w|
  {
    if w != [] {
      assert (w + rest)[1..] == w[1..] + rest;
      WordPrefixOf(w[1..], rest);
    }
  }

  /** A word followed by whitespace (or nothing) is the first element of the split. */
  lemma SplitWordThen(w: string, rest: string)
    requires IsWord(w)
    requires rest == [] || IsSpace(rest[0])
    ensures Split(w + rest) == [w] + Split(rest)
  {
    WordPrefixOf(w, rest);
    assert (w + rest)[..|w|] == w;
    assert (w + rest)[|w|..] == rest;
  }

  /** Splitting a space-joined list of words gives the words back. */
  lemma {:induction false} SplitJoin(ws: seq<string>)
    requires AllWords(ws)
    ensures Split(Join(" ", ws)) == ws
  {
    if |ws| == 1 {
      SplitWordThen(ws[0], "");
      assert ws[0] + "" == ws[0];
    } else if |ws| > 1 {
      var tail := Join(" ", ws[1..]);
      assert Join(" ", ws) == ws[0] + (" " + tail);
      SplitWordThen(ws[0], " " + tail);
      assert (" " + tail)[1..] == tail;
      SplitJoin(ws[1..]);
    }
  }

  // ---------------------------------------------------------------------------
  // str.split(sep) for a one-character separator

  /** `s.split(sep)`: never empty, keeps empty pieces. */
  function SplitOn(s: string, sep: char): (parts: seq<string>)
    ensures |parts| >= 1
    ensures forall k, i :: 0 <= k < |parts| && 0 <= i < |parts[k]| ==> parts[k][i] != sep
  {
    if s == [] then [""]
    else if s[0] == sep then [""] + SplitOn(s[1..], sep)
    else
      var rest := SplitOn(s[1..], sep);
      [[s[0]] + rest[0]] + rest[1..]
  }

  /** `sep.join(s.split(sep)) == s`. */
  lemma {:induction false} JoinSplitOn(s: string, sep: char)
    ensures Join([sep], SplitOn(s, sep)) == s
  {
    if s != [] {
      JoinSplitOn(s[1..], sep);
      var rest := SplitOn(s[1..], sep);
      if s[0] == sep {
        assert SplitOn(s, sep) == [""] + rest;
        assert ([""] + rest)[1..] == rest;
      } else {
        var parts := SplitOn(s, sep);
        assert parts == [[s[0]] + rest[0]] + rest[1..];
        if |rest| == 1 {
          assert Join([sep], rest) == rest[0];
        } else {
          assert Join([sep], rest) == rest[0] + [sep] + Join([sep], rest[1..]);
          assert parts[1..] == rest[1..];
        }
      }
    }
  }

  /** The first piece of `s.split(sep)` when `s` starts with a separator-free `a`
      followed by the separator or by nothing. */
  lemma {:induction false} SplitOnFirst(a: string, rest: string, sep: char)
    requires forall i :: 0 <= i < |a| ==> a[i] != sep
    requires rest == [] || rest[0] == sep
    ensures SplitOn(a + rest, sep)[0] == a
  {
    if a != [] {
      assert (a + rest)[1..] == a[1..] + rest;
      SplitOnFirst(a[1..], rest, sep);
      assert [a[0]] + a[1..] == a;
    }
  }

  /** A separator-free string is a single piece. */
  lemma {:induction false} SplitOnNone(s: string, sep: char)
    requires forall i :: 0 <= i < |s| ==> s[i] != sep
    ensures SplitOn(s, sep) == [s]
  {
    if s != [] {
      SplitOnNone(s[1..], sep);
      assert [s[0]] + s[1..] == s;
    }
  }

  /** A separator-free `a` followed by the separator is the first piece, and the
      rest is split on its own. */
  lemma {:induction false} SplitOnAfter(a: string, b: string, sep: char)
    requires forall i :: 0 <= i < |a| ==> a[i] != sep
    ensures SplitOn(a + [sep] + b, sep) == [a] + SplitOn(b, sep)
  {
    if a == [] {
      assert a + [sep] + b == [sep] + b;
      assert ([sep] + b)[1..] == b;
    } else {
      assert (a + [sep] + b)[1..] == a[1..] + [sep] + b;
      SplitOnAfter(a[1..], b, sep);
      assert [a[0]] + a[1..] == a;
    }
  }

  // ---------------------------------------------------------------------------
  // str.strip()

  function LStrip(s: string): (r: string)
    ensures |r| <= |s| && r == s[|s| - |r|..]
    ensures forall i :: 0 <= i < |s| - |r| ==> IsSpace(s[i])
    ensures r == [] || !IsSpace(r[0])
  {
    if s != [] && IsSpace(s[0]) then LStrip(s[1..]) else s
  }

  function RStrip(s: string): (r: string)
    ensures |r| <= |s| && r == s[..|r|]
    ensures forall i :: |r| <= i < |s| ==> IsSpace(s[i])
    ensures r == [] || !IsSpace(r[|r| - 1])
  {
    if s != [] && IsSpace(s[|s| - 1]) then RStrip(s[..|s| - 1]) else s
  }

  /** `s.strip()`: drops leading and trailing whitespace. */
  function Strip(s: string): (r: string)
    ensures r == [] || (!IsSpace(r[0]) && !IsSpace(r[|r| - 1]))
    ensures |r| <= |s|
  {
    RStrip(LStrip(s))
  }

  predicate IsStripped(s: string) {
    s == [] || (!IsSpace(s[0]) && !IsSpace(s[|s| - 1]))
  }

  /** Stripping a string with no outer whitespace changes nothing. */
  lemma StripStripped(s: string)
    requires IsStripped(s)
    ensures Strip(s) == s
  {
  }

  /** Strip removes leading whitespace, so one more leading space changes nothing. */
  lemma StripLeadingSpace(s: string)
    ensures Strip(" " + s) == Strip(s)
  {
    assert (" " + s)[1..] == s;
  }

  /** A non-empty whitespace-free `a` at the start survives `strip`. */
  lemma StripKeepsHead(a: string, rest: string)
    requires IsWord(a)
    ensures |Strip(a + rest)| >= |a| && Strip(a + rest)[..|a|] == a
  {
    var s := a + rest;
    assert s[0] == a[0];
    assert LStrip(s) == s;
    var r := RStrip(s);
    assert s[|a| - 1] == a[|a| - 1];
    assert !IsSpace(s[|a| - 1]);
    assert |r| >= |a|;
    assert r[..|a|] == s[..|a|];
  }

  // ---------------------------------------------------------------------------
  // str.replace(pat, rep)

  /** `s.replace("", rep)`: `rep` before every character and at the end. */
  function InsertEverywhere(s: string, rep: string): string {
    if s == [] then rep else rep + [s[0]] + InsertEverywhere(s[1..], rep)
  }

  /** `s.replace(pat, rep)`: leftmost, non-overlapping occurrences, scanned left to right. */
  function Replace(s: string, pat: string, rep: string): string
    decreases |s|
  {
    if pat == [] then InsertEverywhere(s, rep)
    else if |s| < |pat| then s
    else if s[..|pat|] == pat then rep + Replace(s[|pat|..], pat, rep)
    else [s[0]] + Replace(s[1..], pat, rep)
  }

  predicate OccursAt(s: string, i: int, pat: string) {
    0 <= i && i + |pat| <= |s| && s[i..i + |pat|] == pat
  }

  predicate Absent(s: string, pat: string) {
    forall i :: 0 <= i <= |s| ==> !OccursAt(s, i, pat)
  }

  /** No proper prefix of `pat` is also a suffix, so two occurrences never overlap. */
  predicate BorderFree(pat: string) {
    forall k :: 0 < k < |pat| ==> pat[k..] != pat[..|pat| - k]
  }

  /** Replacing a pattern that does not occur leaves the string unchanged. */
  lemma {:induction false} ReplaceAbsent(s: string, pat: string, rep: string)
    requires pat != []
    requires Absent(s, pat)
    ensures Replace(s, pat, rep) == s
    decreases |s|
  {
    if |s| >= |pat| {
      assert !OccursAt(s, 0, pat);
      forall i | 0 <= i <= |s[1..]| ensures !OccursAt(s[1..], i, pat) {
        OccursShift(s, i, pat);
      }
      ReplaceAbsent(s[1..], pat, rep);
    }
  }

  /** An occurrence in the tail is an occurrence in the whole, one place further. */
  lemma OccursShift(s: string, i: nat, pat: string)
    requires s != []
    ensures OccursAt(s[1..], i, pat) <==> OccursAt(s, i + 1, pat)
  {
    if i + |pat| <= |s[1..]| {
      SliceShift(s, i, i + |pat|);
    }
  }

  /** A slice of the tail is the slice of the whole shifted by one. */
  lemma SliceShift<T>(s: seq<T>, i: nat, j: nat)
    requires i <= j && j + 1 <= |s|
    ensures s[1..][i..j] == s[i + 1..j + 1]
  {
  }

  /** Replacement passes over a prefix in which no occurrence starts. */
  lemma {:induction false} ReplaceSkip(a: string, r: string, pat: string, rep: string)
    requires pat != []
    requires forall i :: 0 <= i < |a| ==> !OccursAt(a + r, i, pat)
    ensures Replace(a + r, pat, rep) == a + Replace(r, pat, rep)
    decreases |a|
  {
    if a != [] {
      var s := a + r;
      assert !OccursAt(s, 0, pat);
      assert s[1..] == a[1..] + r;
      forall i | 0 <= i < |a[1..]| ensures !OccursAt(a[1..] + r, i, pat) {
        OccursShift(s, i, pat);
      }
      ReplaceSkip(a[1..], r, pat, rep);
      var tail := Replace(r, pat, rep);
      if |s| >= |pat| {
        assert s[..|pat|] != pat;
        assert Replace(s, pat, rep) == [s[0]] + Replace(s[1..], pat, rep);
        assert Replace(s, pat, rep) == [s[0]] + (a[1..] + tail);
        assert [s[0]] + (a[1..] + tail) == ([s[0]] + a[1..]) + tail;
        assert [s[0]] + a[1..] == a;
      } else {
        assert tail == r;
      }
    } else {
      assert a + r == r;
    }
  }

  /** Entity restoration: a placeholder that occurs exactly once, between text that
      does not contain it, is replaced by its value and nothing else changes. */
  lemma ReplaceSplice(a: string, b: string, pat: string, rep: string)
    requires pat != [] && BorderFree(pat)
    requires Absent(a, pat) && Absent(b, pat)
    ensures Replace(a + pat + b, pat, rep) == a + rep + b
  {
    var s := a + pat + b;
    var r := pat + b;
    assert s == a + r;
    forall i | 0 <= i < |a| ensures !OccursAt(s, i, pat) {
      if i + |pat| <= |a| {
        assert s[i..i + |pat|] == a[i..i + |pat|];
        assert !OccursAt(a, i, pat);
      } else if i + |pat| <= |s| {
        var k := |a| - i;
        var w := s[i..i + |pat|];
        assert w[k..] == s[|a|..i + |pat|] == pat[..|pat| - k];
        assert pat[k..] != pat[..|pat| - k];
        assert w[k..] != pat[k..];
      }
    }
    ReplaceSkip(a, r, pat, rep);
    assert r[..|pat|] == pat;
    assert r[|pat|..] == b;
    ReplaceAbsent(b, pat, rep);
  }

  /** Per-character substitution: every `c` becomes `t`. */
  function Subst(s: string, c: char, t: string): string {
    if s == [] then [] else (if s[0] == c then t else [s[0]]) + Subst(s[1..], c, t)
  }

  lemma {:induction false} SubstAppend(a: string, b: string, c: char, t: string)
    ensures Subst(a + b, c, t) == Subst(a, c, t) + Subst(b, c, t)
  {
    if a != [] {
      assert (a + b)[0] == a[0];
      assert (a + b)[1..] == a[1..] + b;
      SubstAppend(a[1..], b, c, t);
    } else {
      assert a + b == b;
    }
  }

  /** Replacing a one-character pattern is per-character substitution. */
  lemma {:induction false} ReplaceOneChar(s: string, c: char, t: string)
    ensures Replace(s, [c], t) == Subst(s, c, t)
  {
    if s != [] {
      ReplaceOneChar(s[1..], c, t);
      assert s[..1] == [s[0]];
    }
  }

  predicate HasPair(s: string, x: char, y: char) {
    exists i :: 0 <= i < |s| - 1 && s[i] == x && s[i + 1] == y
  }

  /** Replacing a two-character pattern by one character that is neither of its two
      characters leaves no occurrence of the pattern behind. */
  lemma {:induction false} ReplacePairRemovesAll(s: string, x: char, y: char, z: char)
    requires z != x && z != y
    ensures !HasPair(Replace(s, [x, y], [z]), x, y)
    decreases |s|
  {
    var r := Replace(s, [x, y], [z]);
    if |s| < 2 {
      assert r == s;
    } else if s[..2] == [x, y] {
      var tail := Replace(s[2..], [x, y], [z]);
      ReplacePairRemovesAll(s[2..], x, y, z);
      assert r == [z] + tail;
      forall i | 0 < i < |r| - 1 ensures !(r[i] == x && r[i + 1] == y) {
        assert r[i] == tail[i - 1] && r[i + 1] == tail[i];
      }
    } else {
      var t := s[1..];
      var tail := Replace(t, [x, y], [z]);
      ReplacePairRemovesAll(t, x, y, z);
      assert r == [s[0]] + tail;
      assert s[..2] == [s[0], s[1]];
      if s[0] == x {
        if |t| < 2 {
          assert tail == t;
        } else if t[..2] == [x, y] {
          assert tail[0] == z;
        } else {
          assert tail[0] == t[0];
        }
        assert tail[0] != y;
      }
      forall i | 0 < i < |r| - 1 ensures !(r[i] == x && r[i + 1] == y) {
        assert r[i] == tail[i - 1] && r[i + 1] == tail[i];
      }
    }
  }

  /** Deleting every `c` leaves no `c`. */
  lemma {:induction false} SubstRemoves(s: string, c: char)
    ensures c !in Subst(s, c, "")
  {
    if s != [] {
      SubstRemoves(s[1..], c);
    }
  }

  /** Substituting a character that does not occur changes nothing. */
  lemma {:induction false} SubstAbsent(s: string, c: char, t: string)
    requires c !in s
    ensures Subst(s, c, t) == s
  {
    if s != [] {
      SubstAbsent(s[1..], c, t);
    }
  }

  /** Substituting `c` for `d` and back restores a string that had no `c`. */
  lemma {:induction false} SubstBack(s: string, d: char, c: char)
    requires c !in s
    ensures Subst(Subst(s, d, [c]), c, [d]) == s
  {
    if s != [] {
      var head: string := if s[0] == d then [c] else [s[0]];
      SubstBack(s[1..], d, c);
      SubstAppend(head, Subst(s[1..], d, [c]), c, [d]);
      assert Subst(head, c, [d]) == [s[0]] by {
        assert head[1..] == [];
      }
    }
  }

  /** Deleting the separator of a space-joined list of space-free parts concatenates
      the parts. */
  lemma {:induction false} JoinDeleteSpaces(parts: seq<string>)
    requires forall k :: 0 <= k < |parts| ==> ' ' !in parts[k]
    ensures Subst(Join(" ", parts), ' ', "") == Flatten(parts)
  {
    if |parts| == 1 {
      SubstAbsent(parts[0], ' ', "");
      assert Flatten(parts) == parts[0] + Flatten(parts[1..]);
    } else if |parts| > 1 {
      JoinDeleteSpaces(parts[1..]);
      SubstAbsent(parts[0], ' ', "");
      SubstAppend(parts[0] + " ", Join(" ", parts[1..]), ' ', "");
      SubstAppend(parts[0], " ", ' ', "");
      assert Subst(" ", ' ', "") == "" by {
        assert " "[1..] == "";
      }
    }
  }

  /** A replacement whose pattern and replacement agree once every `c` is deleted
      changes nothing but occurrences of `c`. */
  lemma {:induction false} ReplaceOnlyMoves(s: string, pat: string, rep: string, c: char)
    requires pat != []
    requires Subst(pat, c, "") == Subst(rep, c, "")
    ensures Subst(Replace(s, pat, rep), c, "") == Subst(s, c, "")
    decreases |s|
  {
    if |s| < |pat| {
    } else if s[..|pat|] == pat {
      var rest := s[|pat|..];
      ReplaceOnlyMoves(rest, pat, rep, c);
      SubstAppend(rep, Replace(rest, pat, rep), c, "");
      assert s == pat + rest;
      SubstAppend(pat, rest, c, "");
    } else {
      ReplaceOnlyMoves(s[1..], pat, rep, c);
      SubstAppend([s[0]], Replace(s[1..], pat, rep), c, "");
      assert s == [s[0]] + s[1..];
      SubstAppend([s[0]], s[1..], c, "");
    }
  }

  // ---------------------------------------------------------------------------
  // Counting characters (what `len(re.findall(<one-char class>, s))` computes)

  function Count(s: string, p: char -> bool): (n: nat)
    ensures n <= |s|
  {
    if s == [] then 0 else (if p(s[0]) then 1 else 0) + Count(s[1..], p)
  }

  /** Characters matching one of three pairwise exclusive classes number at most |s|;
      the ones matching none are exactly the rest. */
  lemma {:induction false} CountDisjoint3(s: string, p: char -> bool, q: char -> bool, r: char -> bool,
                                          valid: char -> bool)
    requires forall c :: !(p(c) && q(c)) && !(p(c) && r(c)) && !(q(c) && r(c))
    requires forall c :: valid(c) <==> !q(c) && !r(c)
    ensures Count(s, q) + Count(s, r) + Count(s, valid) == |s|
    ensures Count(s, p) <= Count(s, valid)
  {
    if s != [] {
      CountDisjoint3(s[1..], p, q, r, valid);
    }
  }
}
