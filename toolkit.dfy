/** The collaborators the pipeline calls but does not implement: sentence
    splitters, normalizers, tokenizers, detokenizers, the transliterator, the
    sentencepiece encoder, the translation backend and the regular-expression
    scan for e-mail addresses and URLs. Each is an uninterpreted total function
    handed to the model as a field of `Tools`; the model states what the
    pipeline does around them. */
module Toolkit {

  /** The FLORES code of English, the one language the pipeline treats specially. */
  const ENGLISH: string := "eng_Latn"

  /** The outcome of a step that the source ends with a failed `assert`. */
  datatype Result<T> = Success(value: T) | Failure(error: string)

  /** A placeholder map (a Python dict from placeholder to original entity), as its
      entries in insertion order: the order in which `postprocess` substitutes them. */
  type EntityMap = seq<(string, string)>

  /** What the e-mail and URL regular expressions of `char_percent_check` find in a
      paragraph: the total length of the e-mail matches, the total length of the URL
      matches, and the paragraph with both kinds of match removed. */
  datatype EmailUrlScan = EmailUrlScan(emailChars: nat, urlChars: nat, residual: string)

  datatype Tools = Tools(
    /** Moses sentence splitter for English. */
    mosesSplit: string -> seq<string>,
    /** NLTK `sent_tokenize`. */
    nltkSplit: string -> seq<string>,
    /** indic-nlp `sentence_split(paragraph, lang=iso, delim_pat=DELIM_PAT_NO_DANDA)`. */
    indicSplit: (string, string) -> seq<string>,
    /** `flores_codes[lang]`: FLORES code to ISO code. */
    isoCode: string -> string,
    /** `punc_norm(sent, iso)`. */
    puncNorm: (string, string) -> string,
    /** `normalize(sent)`: masks entities, returns the masked text and its placeholder map. */
    normalize: string -> (string, EntityMap),
    /** Moses punctuation normalizer and tokenizer for English. */
    enNormalize: string -> string,
    enTokenize: string -> seq<string>,
    /** indic-nlp normalizer and `trivial_tokenize` for an ISO code. */
    indicNormalize: (string, string) -> string,
    indicTokenize: (string, string) -> seq<string>,
    /** `UnicodeIndicTransliterator.transliterate(text, from_iso, to_iso)`. */
    transliterate: (string, string, string) -> string,
    /** Source-side sentencepiece `encode(sent, out_type=str)`. */
    spmEncode: string -> seq<string>,
    /** The model's `translate_lines(lines, len_id)`, one output line per input line. */
    translateLines: (seq<string>, seq<nat>) -> seq<string>,
    /** Moses detokenizer for English and indic-nlp `trivial_detokenize`. */
    enDetokenize: seq<string> -> string,
    indicDetokenize: (string, string) -> string,
    /** The e-mail and URL regular expressions of `char_percent_check`. */
    scanEmailsUrls: string -> EmailUrlScan
  )
}
