/** `Model.is_english` and `ctranslate2_translate_lines`. When the batch is
    translated from English (decided by the first token of the first line), the
    backend is asked for several ranked hypotheses per line and the first one
    without a Latin letter outside the ignore list is kept, falling back to the
    top-ranked one. Otherwise the top-ranked hypothesis is kept. The backend's
    hypotheses are an input of the model. */
module Selection {
  import opened PyStr
  import opened Tagging
  import opened Toolkit

  /** A character of the ranges 'A'..'Z' or 'a'..'z'. */
  predicate IsAsciiLetter(c: char) {
    'A' <= c <= 'Z' || 'a' <= c <= 'z'
  }

  /** A character that `is_english` counts as English with this ignore list. */
  predicate Leaks(c: char, ignore: seq<char>) {
    c !in ignore && IsAsciiLetter(c)
  }

  /** What `is_english(tokens, ignore)` decides: some character of some token is an
      ASCII letter not in the ignore list. */
  predicate HasLatinLetter(tokens: seq<string>, ignore: seq<char>) {
    exists w, i :: 0 <= w < |tokens| && 0 <= i < |tokens[w]| && Leaks(tokens[w][i], ignore)
  }

  /** `is_english`: scan word by word, character by character, stop at the first hit. */
  method IsEnglish(tokens: seq<string>, ignore: seq<char>) returns (found: bool)
    ensures found <==> HasLatinLetter(tokens, ignore)
  {
    for w := 0 to |tokens|
      invariant forall w', i :: 0 <= w' < w && 0 <= i < |tokens[w']| ==> !Leaks(tokens[w'][i], ignore)
    {
      var word := tokens[w];
      for i := 0 to |word|
        invariant forall i' :: 0 <= i' < i ==> !Leaks(word[i'], ignore)
      {
        if word[i] !in ignore && IsAsciiLetter(word[i]) {
          return true;
        }
      }
    }
    return false;
  }

  /** The ignore list for a line whose sentence had `entityCount` placeholders. */
  function IgnoreList(entityCount: nat): seq<char> {
    if entityCount == 0 then [] else ['I', 'D']
  }

  /** The selection loop from rank `k` on: the first hypothesis without a leaking
      character, or hypothesis 0 when there is none. */
  function ChooseFrom(hyps: seq<seq<string>>, ignore: seq<char>, k: nat): seq<string>
    requires 0 < |hyps| && k <= |hyps|
    decreases |hyps| - k
  {
    if k == |hyps| then hyps[0]
    else if !HasLatinLetter(hyps[k], ignore) then hyps[k]
    else ChooseFrom(hyps, ignore, k + 1)
  }

  function Choose(hyps: seq<seq<string>>, ignore: seq<char>): seq<string>
    requires 0 < |hyps|
  {
    ChooseFrom(hyps, ignore, 0)
  }

  /** Hypothesis k is clean and every better-ranked one leaks. */
  predicate FirstClean(hyps: seq<seq<string>>, ignore: seq<char>, k: int) {
    && 0 <= k < |hyps|
    && !HasLatinLetter(hyps[k], ignore)
    && forall m :: 0 <= m < k ==> HasLatinLetter(hyps[m], ignore)
  }

  lemma {:induction false} ChooseFromSpec(hyps: seq<seq<string>>, ignore: seq<char>, j: nat)
    requires 0 < |hyps| && j <= |hyps|
    ensures forall k :: j <= k && FirstClean(hyps, ignore, k) ==> ChooseFrom(hyps, ignore, j) == hyps[k]
    ensures (forall k :: j <= k < |hyps| ==> HasLatinLetter(hyps[k], ignore)) ==> ChooseFrom(hyps, ignore, j) == hyps[0]
    decreases |hyps| - j
  {
    if j < |hyps| {
      ChooseFromSpec(hyps, ignore, j + 1);
    }
  }

  /** The selection rule: the chosen hypothesis is the best-ranked clean one, and the
      top-ranked one when every hypothesis leaks. So a clean hypothesis is chosen
      whenever one exists. */
  lemma ChooseSpec(hyps: seq<seq<string>>, ignore: seq<char>)
    requires 0 < |hyps|
    ensures forall k :: FirstClean(hyps, ignore, k) ==> Choose(hyps, ignore) == hyps[k]
    ensures (forall k :: 0 <= k < |hyps| ==> HasLatinLetter(hyps[k], ignore)) ==> Choose(hyps, ignore) == hyps[0]
    ensures (exists k :: 0 <= k < |hyps| && !HasLatinLetter(hyps[k], ignore)) ==> !HasLatinLetter(Choose(hyps, ignore), ignore)
  {
    ChooseFromSpec(hyps, ignore, 0);
    if exists k :: 0 <= k < |hyps| && !HasLatinLetter(hyps[k], ignore) {
      var k :| 0 <= k < |hyps| && !HasLatinLetter(hyps[k], ignore);
      var first := FirstCleanBelow(hyps, ignore, k);
      assert FirstClean(hyps, ignore, first);
    }
  }

  /** The best-ranked clean hypothesis at or above a clean one. */
  ghost function FirstCleanBelow(hyps: seq<seq<string>>, ignore: seq<char>, k: nat): (first: nat)
    requires k < |hyps| && !HasLatinLetter(hyps[k], ignore)
    ensures first <= k && FirstClean(hyps, ignore, first)
  {
    if exists m :: 0 <= m < k && !HasLatinLetter(hyps[m], ignore) then
      var m :| 0 <= m < k && !HasLatinLetter(hyps[m], ignore);
      FirstCleanBelow(hyps, ignore, m)
    else k
  }

  /** The loop body of the selection for one translation. */
  method SelectHypothesis(hyps: seq<seq<string>>, entityCount: nat) returns (chosen: seq<string>)
    requires 0 < |hyps|
    ensures chosen == Choose(hyps, IgnoreList(entityCount))
  {
    var j := 0;
    while j < |hyps|
      invariant 0 <= j <= |hyps|
      invariant ChooseFrom(hyps, IgnoreList(entityCount), j) == Choose(hyps, IgnoreList(entityCount))
    {
      var ignore := IgnoreList(entityCount);
      var english := IsEnglish(hyps[j], ignore);
      if !english {
        return hyps[j];
      }
      j := j + 1;
    }
    return hyps[0];
  }

  function MinLen(a: nat, b: nat): nat {
    if a < b then a else b
  }

  /** `for i, len_ids in zip(translations, len_id)`: one selected line per pair. */
  method SelectTranslations(translations: seq<seq<seq<string>>>, lenId: seq<nat>) returns (out: seq<string>)
    requires forall t :: 0 <= t < |translations| ==> 0 < |translations[t]|
    ensures |out| == MinLen(|translations|, |lenId|)
    ensures forall t :: 0 <= t < |out| ==> out[t] == Join(" ", Choose(translations[t], IgnoreList(lenId[t])))
  {
    var finalResponse: seq<seq<string>> := [];
    var n := MinLen(|translations|, |lenId|);
    for t := 0 to n
      invariant |finalResponse| == t
      invariant forall u :: 0 <= u < t ==> finalResponse[u] == Choose(translations[u], IgnoreList(lenId[u]))
    {
      var chosen := SelectHypothesis(translations[t], lenId[t]);
      finalResponse := finalResponse + [chosen];
    }
    out := seq(|finalResponse|, u requires 0 <= u < |finalResponse| => Join(" ", finalResponse[u]));
  }

  /** The token `ctranslate2_translate_lines` compares with "eng_Latn". */
  function FirstToken(line: string): string {
    SplitOn(Strip(line), ' ')[0]
  }

  /** `ctranslate2_translate_lines(lines, len_id)` given the backend's ranked
      hypotheses for each line (`hypotheses[t]`, best first). */
  method Ct2TranslateLines(lines: seq<string>, lenId: seq<nat>, hypotheses: seq<seq<seq<string>>>)
    returns (out: seq<string>)
    requires 0 < |lines|
    requires forall t :: 0 <= t < |hypotheses| ==> 0 < |hypotheses[t]|
    ensures FirstToken(lines[0]) == ENGLISH ==>
      && |out| == MinLen(|hypotheses|, |lenId|)
      && forall t :: 0 <= t < |out| ==> out[t] == Join(" ", Choose(hypotheses[t], IgnoreList(lenId[t])))
    ensures FirstToken(lines[0]) != ENGLISH ==>
      && |out| == |hypotheses|
      && forall t :: 0 <= t < |out| ==> out[t] == Join(" ", hypotheses[t][0])
  {
    var firstTokens := SplitOn(Strip(lines[0]), ' ');
    if firstTokens[0] == ENGLISH {
      out := SelectTranslations(hypotheses, lenId);
    } else {
      out := seq(|hypotheses|, t requires 0 <= t < |hypotheses| => Join(" ", hypotheses[t][0]));
    }
  }

  /** A line built by `apply_lang_tags` is read by `ctranslate2_translate_lines` as
      coming from its source language: the first token is the source code. */
  lemma TaggedLineDirection(sent: string, srcLang: string, tgtLang: string)
    requires IsWord(srcLang)
    ensures FirstToken(AddToken(Strip(sent), srcLang, tgtLang)) == srcLang
  {
    var line := AddToken(Strip(sent), srcLang, tgtLang);
    var rest := line[|srcLang|..];
    assert line == srcLang + rest;
    StripKeepsHead(srcLang, rest);
    var t := Strip(line);
    assert LStrip(line) == line by { assert line[0] == srcLang[0]; }
    assert t == line[..|t|];
    assert t == srcLang + t[|srcLang|..];
    assert t[|srcLang|..] == [] || t[|srcLang|..][0] == ' ' by {
      if |t| > |srcLang| {
        assert t[|srcLang|] == line[|srcLang|] == ' ';
      }
    }
    SplitOnFirst(srcLang, t[|srcLang|..], ' ');
  }

  /** The exemption: a hypothesis whose only Latin letters are the 'I' and 'D' of an
      entity placeholder such as "<ID1>" passes when the sentence had entities, and is
      rejected as English when it had none. */
  lemma PlaceholderExemption()
    ensures !HasLatinLetter(["<ID1>"], IgnoreList(1))
    ensures HasLatinLetter(["<ID1>"], IgnoreList(0))
  {
    var tokens := ["<ID1>"];
    assert Leaks(tokens[0][1], IgnoreList(0));
    forall w, i | 0 <= w < |tokens| && 0 <= i < |tokens[w]| ensures !Leaks(tokens[w][i], IgnoreList(1)) {
      assert tokens[w] == "<ID1>";
    }
  }
}
