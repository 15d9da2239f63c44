/** The source side of the pipeline: `split_sentences`, `preprocess_sent`,
    `preprocess`, `apply_spm` and `preprocess_batch`. The splitters, normalizers,
    tokenizers, the transliterator and the sentencepiece encoder are the
    uninterpreted fields of `Tools`; the model states what the pipeline does
    around them. */
module Preprocessing {
  import opened PyStr
  import opened Toolkit
  import opened Chunking
  import opened Tagging

  // ---------------------------------------------------------------------------
  // split_sentences

  /** U+00AD SOFT HYPHEN, removed from English sentences. */
  const SOFT_HYPHEN: char := '\U{ad}'

  /** `split_sentences(paragraph, lang)`: for English, the NLTK split when it has
      strictly fewer sentences than the Moses split (ties go to Moses), with soft
      hyphens removed; for any other language the indic-nlp splitter. */
  function SplitSentences(paragraph: string, lang: string, tools: Tools): seq<string> {
    if lang == ENGLISH then
      var moses := tools.mosesSplit(paragraph);
      var nltk := tools.nltkSplit(paragraph);
      var sents := if |nltk| < |moses| then nltk else moses;
      seq(|sents|, k requires 0 <= k < |sents| => Replace(sents[k], [SOFT_HYPHEN], ""))
    else
      tools.indicSplit(paragraph, tools.isoCode(lang))
  }

  /** For English, the split with fewer sentences is kept (Moses on a tie), each of its
      sentences with every soft hyphen deleted and nothing else changed; no sentence
      keeps a soft hyphen. Other languages get the indic-nlp split unchanged. */
  lemma SplitSentencesSpec(paragraph: string, lang: string, tools: Tools)
    ensures lang == ENGLISH ==>
      var moses := tools.mosesSplit(paragraph);
      var nltk := tools.nltkSplit(paragraph);
      var chosen := if |nltk| < |moses| then nltk else moses;
      var sents := SplitSentences(paragraph, lang, tools);
      && |sents| == Min(|nltk|, |moses|)
      && (forall k :: 0 <= k < |sents| ==> sents[k] == Subst(chosen[k], SOFT_HYPHEN, ""))
      && (forall k :: 0 <= k < |sents| ==> SOFT_HYPHEN !in sents[k])
    ensures lang != ENGLISH ==>
      SplitSentences(paragraph, lang, tools) == tools.indicSplit(paragraph, tools.isoCode(lang))
  {
    if lang == ENGLISH {
      var moses := tools.mosesSplit(paragraph);
      var nltk := tools.nltkSplit(paragraph);
      var chosen := if |nltk| < |moses| then nltk else moses;
      var sents := SplitSentences(paragraph, lang, tools);
      forall k | 0 <= k < |sents|
        ensures sents[k] == Subst(chosen[k], SOFT_HYPHEN, "")
        ensures SOFT_HYPHEN !in sents[k]
      {
        ReplaceOneChar(chosen[k], SOFT_HYPHEN, "");
        SubstRemoves(chosen[k], SOFT_HYPHEN);
      }
    }
  }

  // ---------------------------------------------------------------------------
  // preprocess_sent

  /** The script part of a FLORES code such as "hin_Deva". */
  function Script(lang: string): string
    requires |SplitOn(lang, '_')| >= 2
  {
    SplitOn(lang, '_')[1]
  }

  /** Scripts whose text is not transliterated to Devanagari. */
  const KEEP_SCRIPT: seq<string> := ["Arab", "Aran", "Olck", "Mtei", "Latn"]

  predicate Transliterates(lang: string)
    requires |SplitOn(lang, '_')| >= 2
  {
    Script(lang) !in KEEP_SCRIPT
  }

  /** U+094D DEVANAGARI SIGN VIRAMA. */
  const VIRAMA: char := '\U{94d}'

  /** The spaces the tokenizer puts around a virama are removed after transliteration. */
  function FixVirama(s: string): string {
    Replace(s, [' ', VIRAMA, ' '], [VIRAMA])
  }

  /** The virama fix changes the spacing only: with every space deleted, the text
      before and after it is the same. */
  lemma FixViramaOnlySpacing(s: string)
    ensures Subst(FixVirama(s), ' ', "") == Subst(s, ' ', "")
  {
    var pat: string := [' ', VIRAMA, ' '];
    assert pat[1..] == [VIRAMA, ' '] && pat[1..][1..] == [' '] && pat[1..][1..][1..] == [];
    assert [VIRAMA][1..] == [];
    assert Subst([' '], ' ', "") == "";
    assert Subst([VIRAMA, ' '], ' ', "") == [VIRAMA];
    assert Subst(pat, ' ', "") == [VIRAMA];
    assert Subst([VIRAMA], ' ', "") == [VIRAMA];
    ReplaceOnlyMoves(s, pat, [VIRAMA], ' ');
  }

  /** `preprocess_sent(sent, normalizer, lang)`: punctuation normalization, entity
      masking, then Moses normalization and tokenization for English, or indic-nlp
      normalization and tokenization, followed for most scripts by transliteration
      to Devanagari ("hi") and the virama fix. `preprocess` hands no normalizer for
      English, so English must map to the ISO code "en". */
  function PreprocessSent(sent: string, lang: string, tools: Tools): (string, EntityMap)
    requires |SplitOn(lang, '_')| >= 2
    requires lang == ENGLISH ==> tools.isoCode(lang) == "en"
  {
    var iso := tools.isoCode(lang);
    var masked := tools.normalize(tools.puncNorm(sent, iso));
    var text := Strip(masked.0);
    if iso == "en" then
      (Join(" ", tools.enTokenize(tools.enNormalize(text))), masked.1)
    else
      var tokenized := Join(" ", tools.indicTokenize(tools.indicNormalize(text, iso), iso));
      if Transliterates(lang) then (FixVirama(tools.transliterate(tokenized, iso, "hi")), masked.1)
      else (tokenized, masked.1)
  }

  /** The placeholder map is the one entity masking produced. When no transliteration
      happens, the processed sentence splits back into exactly the tokenizer's tokens
      (when those are non-empty and space-free); when it happens, the result is the
      transliteration with its spacing adjusted and nothing else changed. */
  lemma PreprocessSentSpec(sent: string, lang: string, tools: Tools)
    requires |SplitOn(lang, '_')| >= 2
    requires lang == ENGLISH ==> tools.isoCode(lang) == "en"
    ensures var iso := tools.isoCode(lang);
            var masked := tools.normalize(tools.puncNorm(sent, iso));
            var text := Strip(masked.0);
            var r := PreprocessSent(sent, lang, tools);
            && r.1 == masked.1
            && (iso == "en" && AllWords(tools.enTokenize(tools.enNormalize(text))) ==>
                  Split(r.0) == tools.enTokenize(tools.enNormalize(text)))
            && (iso != "en" && !Transliterates(lang) && AllWords(tools.indicTokenize(tools.indicNormalize(text, iso), iso)) ==>
                  Split(r.0) == tools.indicTokenize(tools.indicNormalize(text, iso), iso))
            && (iso != "en" && Transliterates(lang) ==>
                  var tokenized := Join(" ", tools.indicTokenize(tools.indicNormalize(text, iso), iso));
                  Subst(r.0, ' ', "") == Subst(tools.transliterate(tokenized, iso, "hi"), ' ', ""))
  {
    var iso := tools.isoCode(lang);
    var text := Strip(tools.normalize(tools.puncNorm(sent, iso)).0);
    if iso == "en" {
      var tokens := tools.enTokenize(tools.enNormalize(text));
      if AllWords(tokens) {
        SplitJoin(tokens);
      }
    } else {
      var tokens := tools.indicTokenize(tools.indicNormalize(text, iso), iso);
      if Transliterates(lang) {
        FixViramaOnlySpacing(tools.transliterate(Join(" ", tokens), iso, "hi"));
      } else if AllWords(tokens) {
        SplitJoin(tokens);
      }
    }
  }

  // ---------------------------------------------------------------------------
  // preprocess, apply_spm, preprocess_batch

  /** The sentences `preprocess` returns. */
  function Texts(sents: seq<string>, lang: string, tools: Tools): (texts: seq<string>)
    requires |SplitOn(lang, '_')| >= 2
    requires lang == ENGLISH ==> tools.isoCode(lang) == "en"
    ensures |texts| == |sents|
  {
    seq(|sents|, k requires 0 <= k < |sents| => PreprocessSent(sents[k], lang, tools).0)
  }

  /** The placeholder maps `preprocess` returns. */
  function Entities(sents: seq<string>, lang: string, tools: Tools): (maps: seq<EntityMap>)
    requires |SplitOn(lang, '_')| >= 2
    requires lang == ENGLISH ==> tools.isoCode(lang) == "en"
    ensures |maps| == |sents|
  {
    seq(|sents|, k requires 0 <= k < |sents| => PreprocessSent(sents[k], lang, tools).1)
  }

  /** `preprocess(sents, lang)`: one processed sentence and one placeholder map per
      input sentence, in order. */
  method Preprocess(sents: seq<string>, lang: string, tools: Tools)
    returns (processed: seq<string>, maps: seq<EntityMap>)
    requires |SplitOn(lang, '_')| >= 2
    requires lang == ENGLISH ==> tools.isoCode(lang) == "en"
    ensures processed == Texts(sents, lang, tools)
    ensures maps == Entities(sents, lang, tools)
  {
    processed, maps := [], [];
    for k := 0 to |sents|
      invariant processed == Texts(sents[..k], lang, tools)
      invariant maps == Entities(sents[..k], lang, tools)
    {
      var result := PreprocessSent(sents[k], lang, tools);
      PreprocessedSnoc(sents, k, lang, tools);
      processed := processed + [result.0];
      maps := maps + [result.1];
    }
    assert sents[..|sents|] == sents;
  }

  /** One more sentence adds its processed text and its map at the end. */
  lemma PreprocessedSnoc(sents: seq<string>, k: nat, lang: string, tools: Tools)
    requires |SplitOn(lang, '_')| >= 2
    requires lang == ENGLISH ==> tools.isoCode(lang) == "en"
    requires k < |sents|
    ensures Texts(sents[..k + 1], lang, tools) == Texts(sents[..k], lang, tools) + [PreprocessSent(sents[k], lang, tools).0]
    ensures Entities(sents[..k + 1], lang, tools) == Entities(sents[..k], lang, tools) + [PreprocessSent(sents[k], lang, tools).1]
  {
    var longer, shorter := sents[..k + 1], sents[..k];
    var t, m := Texts(longer, lang, tools), Entities(longer, lang, tools);
    var t', m' := Texts(shorter, lang, tools), Entities(shorter, lang, tools);
    var last := PreprocessSent(sents[k], lang, tools);
    forall j | 0 <= j < k + 1 ensures t[j] == (t' + [last.0])[j] && m[j] == (m' + [last.1])[j] {
      if j < k {
        assert longer[j] == shorter[j];
      } else {
        assert longer[j] == sents[k];
      }
    }
  }

  /** `apply_spm(sents)`: each sentence becomes its sentencepiece pieces joined by one space. */
  function ApplySpm(sents: seq<string>, tools: Tools): (lines: seq<string>)
    ensures |lines| == |sents|
  {
    seq(|sents|, k requires 0 <= k < |sents| => Join(" ", tools.spmEncode(sents[k])))
  }

  /** When the encoder's pieces are non-empty and space-free, the whitespace words of
      an encoded line are exactly its pieces, so the 256-token limit of
      `truncate_long_sentences` counts sentencepiece pieces. */
  lemma ApplySpmPieces(sents: seq<string>, tools: Tools)
    requires forall k :: 0 <= k < |sents| ==> AllWords(tools.spmEncode(sents[k]))
    ensures forall k :: 0 <= k < |sents| ==> Split(ApplySpm(sents, tools)[k]) == tools.spmEncode(sents[k])
  {
    forall k | 0 <= k < |sents| ensures Split(ApplySpm(sents, tools)[k]) == tools.spmEncode(sents[k]) {
      SplitJoin(tools.spmEncode(sents[k]));
    }
  }

  /** The encoded lines of a batch, after truncation. */
  function BatchLines(batch: seq<string>, srcLang: string, tools: Tools): seq<string>
    requires |SplitOn(srcLang, '_')| >= 2
    requires srcLang == ENGLISH ==> tools.isoCode(srcLang) == "en"
  {
    TruncatedSents(ApplySpm(Texts(batch, srcLang, tools), tools))
  }

  /** The placeholder maps of a batch, after truncation: one per line. */
  function BatchMaps(batch: seq<string>, srcLang: string, tools: Tools): seq<EntityMap>
    requires |SplitOn(srcLang, '_')| >= 2
    requires srcLang == ENGLISH ==> tools.isoCode(srcLang) == "en"
  {
    TruncatedMaps(ApplySpm(Texts(batch, srcLang, tools), tools), Entities(batch, srcLang, tools))
  }

  /** The tagged lines of a batch. */
  function BatchTagged(batch: seq<string>, srcLang: string, tgtLang: string, tools: Tools): (tagged: seq<string>)
    requires |SplitOn(srcLang, '_')| >= 2
    requires srcLang == ENGLISH ==> tools.isoCode(srcLang) == "en"
    ensures |tagged| == |BatchLines(batch, srcLang, tools)|
  {
    var lines := BatchLines(batch, srcLang, tools);
    seq(|lines|, k requires 0 <= k < |lines| => AddToken(Strip(lines[k]), srcLang, tgtLang))
  }

  /** The two lists of a batch are aligned: one placeholder map per tagged line. */
  lemma BatchAligned(batch: seq<string>, srcLang: string, tgtLang: string, tools: Tools)
    requires |SplitOn(srcLang, '_')| >= 2
    requires srcLang == ENGLISH ==> tools.isoCode(srcLang) == "en"
    ensures |BatchTagged(batch, srcLang, tgtLang, tools)| == |BatchMaps(batch, srcLang, tools)|
  {
    TruncatedAligned(ApplySpm(Texts(batch, srcLang, tools), tools), Entities(batch, srcLang, tools));
  }

  /** `preprocess_batch(batch, src_lang, tgt_lang)`: preprocess, encode, truncate and tag.
      Every line carries the language tags and its sentence's placeholder map. */
  method PreprocessBatch(batch: seq<string>, srcLang: string, tgtLang: string, tools: Tools)
    returns (tagged: seq<string>, maps: seq<EntityMap>)
    requires |SplitOn(srcLang, '_')| >= 2
    requires srcLang == ENGLISH ==> tools.isoCode(srcLang) == "en"
    ensures tagged == BatchTagged(batch, srcLang, tgtLang, tools)
    ensures maps == BatchMaps(batch, srcLang, tools)
    ensures |tagged| == |maps|
  {
    var processed, entities := Preprocess(batch, srcLang, tools);
    var tokenized := ApplySpm(processed, tools);
    var lines;
    lines, maps := TruncateLongSentences(tokenized, entities);
    TruncatedAligned(tokenized, entities);
    tagged := ApplyLangTags(lines, srcLang, tgtLang);
  }

  /** A batch none of whose encoded sentences has more than 256 pieces is not cut:
      one line and one map per input sentence, the map being that sentence's own. */
  lemma BatchShort(batch: seq<string>, srcLang: string, tools: Tools)
    requires |SplitOn(srcLang, '_')| >= 2
    requires srcLang == ENGLISH ==> tools.isoCode(srcLang) == "en"
    requires forall k :: 0 <= k < |batch| ==>
      var pieces := tools.spmEncode(PreprocessSent(batch[k], srcLang, tools).0);
      AllWords(pieces) && |pieces| <= MAX_SEQ_LEN
    ensures BatchLines(batch, srcLang, tools) == ApplySpm(Texts(batch, srcLang, tools), tools)
    ensures |BatchMaps(batch, srcLang, tools)| == |batch|
    ensures forall k :: 0 <= k < |batch| ==> BatchMaps(batch, srcLang, tools)[k] == PreprocessSent(batch[k], srcLang, tools).1
  {
    var texts := Texts(batch, srcLang, tools);
    var lines := ApplySpm(texts, tools);
    var entities := Entities(batch, srcLang, tools);
    ApplySpmPieces(texts, tools);
    forall k | 0 <= k < |lines| ensures Short(lines[k]) {
    }
    TruncatedAllShort(lines, entities);
    assert entities[..|lines|] == entities;
  }
}
