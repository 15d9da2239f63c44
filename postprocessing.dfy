/** The target side of the pipeline, `postprocess`: sentencepiece decoding, the
    Perso-Arabic punctuation and Kashmiri fixes, placeholder restoration, then
    detokenization (English) or transliteration back from Devanagari and
    detokenization (other languages), with the Odia fix. */
module Postprocessing {
  import opened PyStr
  import opened Toolkit

  // ---------------------------------------------------------------------------
  // Sentencepiece decoding

  /** U+2581 LOWER ONE EIGHTH BLOCK, sentencepiece's word-boundary mark. */
  const WORD_MARK: char := '\U{2581}'

  /** Delete the spaces between pieces, turn word marks into spaces, strip. */
  function SpmDecode(s: string): string {
    Strip(Replace(Replace(s, " ", ""), [WORD_MARK], " "))
  }

  /** Decoding inverts sentencepiece encoding: a stripped sentence without word marks,
      encoded as space-free pieces that concatenate to a word mark followed by the
      sentence with its spaces shown as word marks, decodes to itself. */
  lemma SpmDecodeRoundTrip(s: string, pieces: seq<string>)
    requires IsStripped(s) && WORD_MARK !in s
    requires forall k :: 0 <= k < |pieces| ==> ' ' !in pieces[k]
    requires Flatten(pieces) == [WORD_MARK] + Subst(s, ' ', [WORD_MARK])
    ensures SpmDecode(Join(" ", pieces)) == s
  {
    var joined := Join(" ", pieces);
    ReplaceOneChar(joined, ' ', "");
    JoinDeleteSpaces(pieces);
    var flat := Flatten(pieces);
    ReplaceOneChar(flat, WORD_MARK, " ");
    SubstAppend([WORD_MARK], Subst(s, ' ', [WORD_MARK]), WORD_MARK, " ");
    assert Subst([WORD_MARK], WORD_MARK, " ") == " " by {
      assert [WORD_MARK][1..] == [];
    }
    SubstBack(s, ' ', WORD_MARK);
    StripLeadingSpace(s);
    StripStripped(s);
  }

  // ---------------------------------------------------------------------------
  // Perso-Arabic fixes

  const ARABIC_QUESTION_MARK: char := '\U{61f}'
  const ARABIC_FULL_STOP: char := '\U{6d4}'
  const ARABIC_COMMA: char := '\U{60c}'
  /** U+066E DOTLESS BEH followed by U+06EA EMPTY CENTRE LOW STOP, written by the model
      for Kashmiri palatalization, and U+0620 KASHMIRI YEH, the intended letter. */
  const DOTLESS_BEH: char := '\U{66e}'
  const LOW_STOP: char := '\U{6ea}'
  const KASHMIRI_YEH: char := '\U{620}'

  /** Drop the space the model writes before the question mark, full stop and comma. */
  function PunctuationFix(s: string): string {
    var q := Replace(s, [' ', ARABIC_QUESTION_MARK], [ARABIC_QUESTION_MARK]);
    var f := Replace(q, [' ', ARABIC_FULL_STOP], [ARABIC_FULL_STOP]);
    Replace(f, [' ', ARABIC_COMMA], [ARABIC_COMMA])
  }

  /** Deleting the space of " c" leaves c. */
  lemma DeleteSpaceBefore(c: char)
    requires c != ' '
    ensures Subst([' ', c], ' ', "") == [c] == Subst([c], ' ', "")
  {
    assert [' ', c][1..] == [c];
    assert [c][1..] == [];
    assert Subst([c], ' ', "") == [c] + Subst([], ' ', "");
  }

  /** The punctuation fix changes the spacing only. */
  lemma PunctuationFixOnlySpacing(s: string)
    ensures Subst(PunctuationFix(s), ' ', "") == Subst(s, ' ', "")
  {
    DeleteSpaceBefore(ARABIC_QUESTION_MARK);
    DeleteSpaceBefore(ARABIC_FULL_STOP);
    DeleteSpaceBefore(ARABIC_COMMA);
    var q := Replace(s, [' ', ARABIC_QUESTION_MARK], [ARABIC_QUESTION_MARK]);
    var f := Replace(q, [' ', ARABIC_FULL_STOP], [ARABIC_FULL_STOP]);
    ReplaceOnlyMoves(s, [' ', ARABIC_QUESTION_MARK], [ARABIC_QUESTION_MARK], ' ');
    ReplaceOnlyMoves(q, [' ', ARABIC_FULL_STOP], [ARABIC_FULL_STOP], ' ');
    ReplaceOnlyMoves(f, [' ', ARABIC_COMMA], [ARABIC_COMMA], ' ');
  }

  function KashmiriFix(s: string): string {
    Replace(s, [DOTLESS_BEH, LOW_STOP], [KASHMIRI_YEH])
  }

  /** After the Kashmiri fix no dotless beh is followed by the low stop. */
  lemma KashmiriFixComplete(s: string)
    ensures !HasPair(KashmiriFix(s), DOTLESS_BEH, LOW_STOP)
  {
    ReplacePairRemovesAll(s, DOTLESS_BEH, LOW_STOP, KASHMIRI_YEH);
  }

  /** The language part and the script part of a FLORES code. */
  function LangCode(lang: string): string
    requires |SplitOn(lang, '_')| == 2
  {
    SplitOn(lang, '_')[0]
  }

  function ScriptCode(lang: string): string
    requires |SplitOn(lang, '_')| == 2
  {
    SplitOn(lang, '_')[1]
  }

  predicate PersoArabic(lang: string)
    requires |SplitOn(lang, '_')| == 2
  {
    ScriptCode(lang) in {"Arab", "Aran"}
  }

  /** What the first loop of `postprocess` makes of one translated line. */
  function DecodeLine(sent: string, lang: string): string
    requires |SplitOn(lang, '_')| == 2
  {
    var decoded := SpmDecode(sent);
    if PersoArabic(lang) then KashmiriFix(PunctuationFix(decoded)) else decoded
  }

  // ---------------------------------------------------------------------------
  // Placeholder restoration

  /** Every placeholder replaced by its entity, entry after entry in the map's order. */
  function Unmask(s: string, m: EntityMap): string
    decreases |m|
  {
    if m == [] then s else Unmask(Replace(s, m[0].0, m[0].1), m[1..])
  }

  /** A sentence that contains none of the placeholders comes back unchanged. */
  lemma {:induction false} UnmaskIdentity(s: string, m: EntityMap)
    requires forall e :: 0 <= e < |m| ==> m[e].0 != [] && Absent(s, m[e].0)
    ensures Unmask(s, m) == s
    decreases |m|
  {
    if m != [] {
      ReplaceAbsent(s, m[0].0, m[0].1);
      UnmaskIdentity(s, m[1..]);
    }
  }

  /** A placeholder that occurs once, overlaps none of its own occurrences, and whose
      entity and surroundings contain none of the later placeholders, is replaced by
      its entity and the rest of the sentence is kept. */
  lemma UnmaskRestores(a: string, b: string, key: string, entity: string, rest: EntityMap)
    requires key != [] && BorderFree(key)
    requires Absent(a, key) && Absent(b, key)
    requires forall e :: 0 <= e < |rest| ==> rest[e].0 != [] && Absent(a + entity + b, rest[e].0)
    ensures Unmask(a + key + b, [(key, entity)] + rest) == a + entity + b
  {
    var m := [(key, entity)] + rest;
    assert m[0] == (key, entity) && m[1..] == rest;
    ReplaceSplice(a, b, key, entity);
    UnmaskIdentity(a + entity + b, rest);
  }

  /** Slot contents: the entity of an entry already restored, its placeholder otherwise. */
  function Shown(entry: (string, string), restored: bool): string {
    if restored then entry.1 else entry.0
  }

  predicate SlotsIn(slots: seq<nat>, m: EntityMap) {
    forall i :: 0 <= i < |slots| ==> slots[i] < |m|
  }

  /** A line described by a template: texts[0], slot 0, texts[1], ..., slot n-1,
      texts[n]. Slot i holds map entry slots[i], restored when that entry is among
      the first `done` of the map. */
  function Render(texts: seq<string>, slots: seq<nat>, m: EntityMap, done: nat): string
    requires |texts| == |slots| + 1 && SlotsIn(slots, m)
  {
    if slots == [] then texts[0]
    else texts[0] + Shown(m[slots[0]], slots[0] < done) + Render(texts[1..], slots[1..], m, done)
  }

  /** Regrouping a string built from four parts. */
  lemma Regroup(h: string, l: string, x: string, r: string)
    ensures h + (l + x + r) == h + l + x + r
  {
  }

  /** Taking then dropping the head is dropping the head then taking one fewer. */
  lemma TakeTail<T>(s: seq<T>, n: nat)
    requires 0 < n <= |s|
    ensures s[..n][1..] == s[1..][..n - 1]
  {
  }

  /** Dropping the head then n - 1 more is dropping n. */
  lemma DropTail<T>(s: seq<T>, n: nat)
    requires 0 < n <= |s|
    ensures s[1..][n - 1..] == s[n..]
  {
  }

  /** A template splits around its slot i. */
  lemma {:induction false} RenderSplit(texts: seq<string>, slots: seq<nat>, m: EntityMap, done: nat, i: nat)
    requires |texts| == |slots| + 1 && SlotsIn(slots, m) && i < |slots|
    ensures Render(texts, slots, m, done)
         == Render(texts[..i + 1], slots[..i], m, done) + Shown(m[slots[i]], slots[i] < done)
            + Render(texts[i + 1..], slots[i + 1..], m, done)
  {
    var h := texts[0] + Shown(m[slots[0]], slots[0] < done);
    var t1, s1 := texts[1..], slots[1..];
    assert Render(texts, slots, m, done) == h + Render(t1, s1, m, done);
    if i > 0 {
      RenderSplit(t1, s1, m, done, i - 1);
      DropTail(texts, i + 1);
      DropTail(slots, i + 1);
      var l := Render(t1[..i], s1[..i - 1], m, done);
      var x := Shown(m[slots[i]], slots[i] < done);
      var r := Render(texts[i + 1..], slots[i + 1..], m, done);
      assert s1[i - 1] == slots[i];
      assert Render(t1, s1, m, done) == l + x + r;
      var tb, sb := texts[..i + 1], slots[..i];
      TakeTail(texts, i + 1);
      TakeTail(slots, i);
      assert tb[0] == texts[0] && sb[0] == slots[0];
      assert Render(tb, sb, m, done) == h + l;
      Regroup(h, l, x, r);
    } else {
      assert texts[..1] == [texts[0]] && slots[..0] == [];
      assert t1 == texts[i + 1..] && s1 == slots[i + 1..];
    }
  }

  /** Two progress marks that agree on every slot render the same line. */
  lemma {:induction false} RenderAgree(texts: seq<string>, slots: seq<nat>, m: EntityMap, d: nat, d': nat)
    requires |texts| == |slots| + 1 && SlotsIn(slots, m)
    requires forall i :: 0 <= i < |slots| ==> (slots[i] < d <==> slots[i] < d')
    ensures Render(texts, slots, m, d) == Render(texts, slots, m, d')
  {
    if slots != [] {
      RenderAgree(texts[1..], slots[1..], m, d, d');
    }
  }

  /** When entry e's turn comes, its placeholder occurs in the line only in its own
      slot, or nowhere when the line has no slot for it. */
  predicate Isolated(texts: seq<string>, slots: seq<nat>, m: EntityMap, e: nat)
    requires |texts| == |slots| + 1 && SlotsIn(slots, m) && e < |m|
  {
    && (forall i :: 0 <= i < |slots| && slots[i] == e ==>
          && Absent(Render(texts[..i + 1], slots[..i], m, e), m[e].0)
          && Absent(Render(texts[i + 1..], slots[i + 1..], m, e), m[e].0))
    && ((forall i :: 0 <= i < |slots| ==> slots[i] != e) ==> Absent(Render(texts, slots, m, e), m[e].0))
  }

  /** Well-formed placeholders: non-empty, never overlapping themselves. */
  predicate Placeholders(m: EntityMap) {
    forall e :: 0 <= e < |m| ==> m[e].0 != [] && BorderFree(m[e].0)
  }

  /** Each map entry fills at most one slot. */
  predicate Distinct(slots: seq<nat>) {
    forall i, i' :: 0 <= i < i' < |slots| ==> slots[i] != slots[i']
  }

  /** Restoring entry e, which fills only slot i, leaves both sides of that slot as
      they were. */
  lemma SidesAgree(texts: seq<string>, slots: seq<nat>, m: EntityMap, e: nat, i: nat)
    requires |texts| == |slots| + 1 && SlotsIn(slots, m)
    requires Distinct(slots) && i < |slots| && slots[i] == e
    ensures SlotsIn(slots[..i], m) && SlotsIn(slots[i + 1..], m)
    ensures Render(texts[..i + 1], slots[..i], m, e) == Render(texts[..i + 1], slots[..i], m, e + 1)
    ensures Render(texts[i + 1..], slots[i + 1..], m, e) == Render(texts[i + 1..], slots[i + 1..], m, e + 1)
  {
    var lower, upper := slots[..i], slots[i + 1..];
    forall k | 0 <= k < |lower| ensures lower[k] < |m| && (lower[k] < e <==> lower[k] < e + 1) {
      assert lower[k] == slots[k];
    }
    forall k | 0 <= k < |upper| ensures upper[k] < |m| && (upper[k] < e <==> upper[k] < e + 1) {
      assert upper[k] == slots[i + 1 + k];
    }
    RenderAgree(texts[..i + 1], lower, m, e, e + 1);
    RenderAgree(texts[i + 1..], upper, m, e, e + 1);
  }

  /** Restoring entry e, which fills slot i, puts its entity into that slot and leaves
      the text on either side, where its placeholder is absent, as it was. */
  lemma UnmaskSlot(texts: seq<string>, slots: seq<nat>, m: EntityMap, e: nat, i: nat)
    requires |texts| == |slots| + 1 && SlotsIn(slots, m) && e < |m|
    requires Placeholders(m) && Distinct(slots) && i < |slots| && slots[i] == e
    requires SlotsIn(slots[..i], m) && SlotsIn(slots[i + 1..], m)
    requires Absent(Render(texts[..i + 1], slots[..i], m, e), m[e].0)
    requires Absent(Render(texts[i + 1..], slots[i + 1..], m, e), m[e].0)
    ensures Replace(Render(texts, slots, m, e), m[e].0, m[e].1) == Render(texts, slots, m, e + 1)
  {
    var key, entity := m[e].0, m[e].1;
    var b := Render(texts[..i + 1], slots[..i], m, e);
    var a := Render(texts[i + 1..], slots[i + 1..], m, e);
    SidesAgree(texts, slots, m, e, i);
    RenderSplit(texts, slots, m, e, i);
    assert Render(texts, slots, m, e) == b + key + a;
    RenderSplit(texts, slots, m, e + 1, i);
    assert Render(texts, slots, m, e + 1) == b + entity + a;
    ReplaceSplice(b, a, key, entity);
  }

  /** Restoring entry e replaces its placeholder by its entity in its slot and changes
      nothing else; an entry without a slot changes nothing. */
  lemma UnmaskStep(texts: seq<string>, slots: seq<nat>, m: EntityMap, e: nat)
    requires |texts| == |slots| + 1 && SlotsIn(slots, m) && e < |m|
    requires Placeholders(m) && Distinct(slots) && Isolated(texts, slots, m, e)
    ensures Replace(Render(texts, slots, m, e), m[e].0, m[e].1) == Render(texts, slots, m, e + 1)
  {
    if i :| 0 <= i < |slots| && slots[i] == e {
      UnmaskSlot(texts, slots, m, e, i);
    } else {
      RenderAgree(texts, slots, m, e, e + 1);
      ReplaceAbsent(Render(texts, slots, m, e), m[e].0, m[e].1);
    }
  }

  lemma {:induction false} UnmaskFrom(texts: seq<string>, slots: seq<nat>, m: EntityMap, j: nat)
    requires |texts| == |slots| + 1 && SlotsIn(slots, m) && j <= |m|
    requires Placeholders(m) && Distinct(slots)
    requires forall e :: j <= e < |m| ==> Isolated(texts, slots, m, e)
    ensures Unmask(Render(texts, slots, m, j), m[j..]) == Render(texts, slots, m, |m|)
    decreases |m| - j
  {
    if j == |m| {
      assert m[j..] == [];
    } else {
      UnmaskStep(texts, slots, m, j);
      assert m[j..][0] == m[j] && m[j..][1..] == m[j + 1..];
      UnmaskFrom(texts, slots, m, j + 1);
    }
  }

  /** Placeholder restoration for any number of placeholders in any order: a line
      made of text pieces and placeholders, each entry of the map in at most one slot,
      comes back with every placeholder replaced by its own entity and the text pieces
      kept, provided each placeholder, when its turn comes, occurs only in its own slot
      (or nowhere, when the translation dropped it). */
  lemma UnmaskRestoresAll(texts: seq<string>, slots: seq<nat>, m: EntityMap)
    requires |texts| == |slots| + 1 && SlotsIn(slots, m)
    requires Placeholders(m) && Distinct(slots)
    requires forall e :: 0 <= e < |m| ==> Isolated(texts, slots, m, e)
    ensures Unmask(Render(texts, slots, m, 0), m) == Render(texts, slots, m, |m|)
    ensures forall i :: 0 <= i < |slots| ==>
      Render(texts, slots, m, |m|)
        == Render(texts[..i + 1], slots[..i], m, |m|) + m[slots[i]].1 + Render(texts[i + 1..], slots[i + 1..], m, |m|)
  {
    UnmaskFrom(texts, slots, m, 0);
    assert m[0..] == m;
    forall i | 0 <= i < |slots|
      ensures Render(texts, slots, m, |m|)
        == Render(texts[..i + 1], slots[..i], m, |m|) + m[slots[i]].1 + Render(texts[i + 1..], slots[i + 1..], m, |m|)
    {
      RenderSplit(texts, slots, m, |m|, i);
    }
  }

  // ---------------------------------------------------------------------------
  // Detokenization and transliteration back

  /** The language the source side was transliterated to. */
  const COMMON_LANG: string := "hin_Deva"

  /** U+0B2F ODIA LETTER YA with U+0B3C ODIA SIGN NUKTA, which the transliterator writes,
      and U+0B5F ODIA LETTER YYA, the letter meant. */
  const ODIA_YA: char := '\U{b2f}'
  const ODIA_NUKTA: char := '\U{b3c}'
  const ODIA_YYA: char := '\U{b5f}'

  function OdiaFix(s: string): string {
    Replace(s, [ODIA_YA, ODIA_NUKTA], [ODIA_YYA])
  }

  /** What the last loop of `postprocess` makes of one restored sentence. */
  function Detokenize(sent: string, lang: string, tools: Tools): string
    requires |SplitOn(lang, '_')| == 2
  {
    if lang == ENGLISH then
      tools.enDetokenize(SplitOn(sent, ' '))
    else
      var iso := tools.isoCode(lang);
      var out := tools.indicDetokenize(tools.transliterate(sent, tools.isoCode(COMMON_LANG), iso), iso);
      if LangCode(lang) == "ory" then OdiaFix(out) else out
  }

  /** "eng_Latn" splits into the language code "eng" and the script code "Latn". */
  lemma EnglishCodes()
    ensures |SplitOn(ENGLISH, '_')| == 2
    ensures LangCode(ENGLISH) == "eng" && ScriptCode(ENGLISH) == "Latn"
  {
    var eng, latn := "eng", "Latn";
    assert forall i :: 0 <= i < |eng| ==> eng[i] != '_';
    assert forall i :: 0 <= i < |latn| ==> latn[i] != '_';
    SplitOnNone(latn, '_');
    SplitOnAfter(eng, latn, '_');
    assert ENGLISH == eng + ['_'] + latn;
  }

  /** Odia output never keeps ya followed by nukta. */
  lemma DetokenizeOdia(sent: string, lang: string, tools: Tools)
    requires |SplitOn(lang, '_')| == 2
    requires LangCode(lang) == "ory"
    ensures !HasPair(Detokenize(sent, lang, tools), ODIA_YA, ODIA_NUKTA)
  {
    var iso := tools.isoCode(lang);
    var out := tools.indicDetokenize(tools.transliterate(sent, tools.isoCode(COMMON_LANG), iso), iso);
    EnglishCodes();
    assert LangCode(lang)[0] != LangCode(ENGLISH)[0];
    ReplacePairRemovesAll(out, ODIA_YA, ODIA_NUKTA, ODIA_YYA);
  }

  /** One translated line from start to end. */
  function PostprocessLine(sent: string, m: EntityMap, lang: string, tools: Tools): string
    requires |SplitOn(lang, '_')| == 2
  {
    Detokenize(Unmask(DecodeLine(sent, lang), m), lang, tools)
  }

  /** The body of the first loop of `postprocess`. */
  method DecodeOne(sent: string, lang: string) returns (line: string)
    requires |SplitOn(lang, '_')| == 2
    ensures line == DecodeLine(sent, lang)
  {
    line := SpmDecode(sent);
    if ScriptCode(lang) in {"Arab", "Aran"} {
      line := PunctuationFix(line);
      line := KashmiriFix(line);
    }
  }

  /** The first loop of `postprocess`: decoding and the Perso-Arabic fixes, in place. */
  method DecodeLines(sents: seq<string>, lang: string) returns (lines: seq<string>)
    requires |SplitOn(lang, '_')| == 2
    ensures |lines| == |sents|
    ensures forall k :: 0 <= k < |sents| ==> lines[k] == DecodeLine(sents[k], lang)
  {
    lines := sents;
    for i := 0 to |lines|
      invariant |lines| == |sents|
      invariant forall k :: 0 <= k < i ==> lines[k] == DecodeLine(sents[k], lang)
      invariant forall k :: i <= k < |lines| ==> lines[k] == sents[k]
    {
      var line := DecodeOne(lines[i], lang);
      lines := lines[i := line];
    }
  }

  /** The inner loop of the restoration: `for key in map.keys()`. */
  method UnmaskLine(sent: string, m: EntityMap) returns (line: string)
    ensures line == Unmask(sent, m)
  {
    line := sent;
    var e := 0;
    while e < |m|
      invariant 0 <= e <= |m|
      invariant Unmask(line, m[e..]) == Unmask(sent, m)
    {
      assert m[e..][1..] == m[e + 1..];
      line := Replace(line, m[e].0, m[e].1);
      e := e + 1;
    }
    assert m[|m|..] == [];
  }

  /** The restoration loop, in place. */
  method UnmaskLines(sents: seq<string>, maps: seq<EntityMap>) returns (lines: seq<string>)
    requires |sents| == |maps|
    ensures |lines| == |sents|
    ensures forall k :: 0 <= k < |sents| ==> lines[k] == Unmask(sents[k], maps[k])
  {
    lines := sents;
    for i := 0 to |lines|
      invariant |lines| == |sents|
      invariant forall k :: 0 <= k < i ==> lines[k] == Unmask(sents[k], maps[k])
      invariant forall k :: i <= k < |lines| ==> lines[k] == sents[k]
    {
      var line := UnmaskLine(lines[i], maps[i]);
      lines := lines[i := line];
    }
  }

  /** The body of the last loops for one line. */
  method DetokenizeOne(sent: string, lang: string, tools: Tools) returns (line: string)
    requires |SplitOn(lang, '_')| == 2
    ensures line == Detokenize(sent, lang, tools)
  {
    if lang == ENGLISH {
      line := tools.enDetokenize(SplitOn(sent, ' '));
    } else {
      var iso := tools.isoCode(lang);
      line := tools.indicDetokenize(tools.transliterate(sent, tools.isoCode(COMMON_LANG), iso), iso);
      if LangCode(lang) == "ory" {
        line := OdiaFix(line);
      }
    }
  }

  /** Every line detokenized. */
  function DetokenizedLines(sents: seq<string>, lang: string, tools: Tools): (out: seq<string>)
    requires |SplitOn(lang, '_')| == 2
    ensures |out| == |sents|
  {
    seq(|sents|, k requires 0 <= k < |sents| => Detokenize(sents[k], lang, tools))
  }

  /** One more line adds its detokenization at the end. */
  lemma DetokenizedSnoc(sents: seq<string>, i: nat, lang: string, tools: Tools)
    requires |SplitOn(lang, '_')| == 2 && i < |sents|
    ensures DetokenizedLines(sents[..i + 1], lang, tools) == DetokenizedLines(sents[..i], lang, tools) + [Detokenize(sents[i], lang, tools)]
  {
    var longer, shorter := sents[..i + 1], sents[..i];
    var a, b := DetokenizedLines(longer, lang, tools), DetokenizedLines(shorter, lang, tools);
    forall k | 0 <= k < i + 1 ensures a[k] == (b + [Detokenize(sents[i], lang, tools)])[k] {
      if k < i {
        assert longer[k] == shorter[k];
      } else {
        assert longer[k] == sents[i];
      }
    }
  }

  /** The last loops: detokenization, and transliteration back for languages other
      than English. */
  method DetokenizeLines(sents: seq<string>, lang: string, tools: Tools) returns (out: seq<string>)
    requires |SplitOn(lang, '_')| == 2
    ensures out == DetokenizedLines(sents, lang, tools)
  {
    out := [];
    for i := 0 to |sents|
      invariant out == DetokenizedLines(sents[..i], lang, tools)
    {
      var line := DetokenizeOne(sents[i], lang, tools);
      DetokenizedSnoc(sents, i, lang, tools);
      out := out + [line];
    }
    assert sents[..|sents|] == sents;
  }

  /** The lines `postprocess` returns. */
  function PostLines(sents: seq<string>, maps: seq<EntityMap>, lang: string, tools: Tools): (out: seq<string>)
    requires |sents| == |maps| && |SplitOn(lang, '_')| == 2
    ensures |out| == |sents|
  {
    seq(|sents|, t requires 0 <= t < |sents| => PostprocessLine(sents[t], maps[t], lang, tools))
  }

  /** A list that agrees with `PostprocessLine` line by line is `PostLines`. */
  lemma PostLinesOf(sents: seq<string>, maps: seq<EntityMap>, lang: string, tools: Tools, out: seq<string>)
    requires |sents| == |maps| && |SplitOn(lang, '_')| == 2
    requires |out| == |sents|
    requires forall t :: 0 <= t < |sents| ==> out[t] == PostprocessLine(sents[t], maps[t], lang, tools)
    ensures out == PostLines(sents, maps, lang, tools)
  {
  }

  /** `postprocess(sents, placeholder_entity_map, lang)`. The source asserts that there
      are as many lines as placeholder maps; that failure is the `Failure` outcome. */
  method Postprocess(sents: seq<string>, maps: seq<EntityMap>, lang: string, tools: Tools)
    returns (r: Result<seq<string>>)
    requires |SplitOn(lang, '_')| == 2
    ensures |sents| != |maps| ==> r.Failure?
    ensures |sents| == |maps| ==>
      && r.Success?
      && r.value == PostLines(sents, maps, lang, tools)
  {
    var decoded := DecodeLines(sents, lang);
    if |decoded| != |maps| {
      return Failure("postprocess: the number of lines and of placeholder maps differ");
    }
    var restored := UnmaskLines(decoded, maps);
    var out := DetokenizeLines(restored, lang, tools);
    PostLinesOf(sents, maps, lang, tools, out);
    return Success(out);
  }
}
