/** `add_token` and `apply_lang_tags`: every (chunked) sentence is prefixed with
    the source and the target language codes, `"{src} {tgt} {sentence}"`. */
module Tagging {
  import opened PyStr

  /** `add_token(sent, src_lang, tgt_lang)` with the default delimiter `" "`. */
  function AddToken(sent: string, srcLang: string, tgtLang: string): string {
    srcLang + " " + tgtLang + " " + sent
  }

  /** Read back with `split(" ")`, as the translator does, a tagged sentence starts
      with exactly the two language codes and continues with the sentence's own
      pieces; and the sentence is the text after the two tags and their delimiters. */
  lemma AddTokenFields(sent: string, srcLang: string, tgtLang: string)
    requires forall i :: 0 <= i < |srcLang| ==> srcLang[i] != ' '
    requires forall i :: 0 <= i < |tgtLang| ==> tgtLang[i] != ' '
    ensures SplitOn(AddToken(sent, srcLang, tgtLang), ' ') == [srcLang, tgtLang] + SplitOn(sent, ' ')
    ensures AddToken(sent, srcLang, tgtLang)[|srcLang| + |tgtLang| + 2..] == sent
  {
    var r := AddToken(sent, srcLang, tgtLang);
    assert r == srcLang + [' '] + (tgtLang + [' '] + sent);
    SplitOnAfter(srcLang, tgtLang + [' '] + sent, ' ');
    SplitOnAfter(tgtLang, sent, ' ');
  }

  /** `apply_lang_tags`: one tagged string per input sentence, in order, each built
      from the stripped sentence. */
  method ApplyLangTags(sents: seq<string>, srcLang: string, tgtLang: string)
    returns (tagged: seq<string>)
    ensures |tagged| == |sents|
    ensures forall k :: 0 <= k < |sents| ==> tagged[k] == AddToken(Strip(sents[k]), srcLang, tgtLang)
  {
    tagged := [];
    for k := 0 to |sents|
      invariant |tagged| == k
      invariant forall m :: 0 <= m < k ==> tagged[m] == AddToken(Strip(sents[m]), srcLang, tgtLang)
    {
      var taggedSent := AddToken(Strip(sents[k]), srcLang, tgtLang);
      tagged := tagged + [taggedSent];
    }
  }
}
