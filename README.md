# IndicTrans2 inference pipeline — a Dafny model

This project models the text pipeline of IndicTrans2's inference engine
(`inference/engine.py`). The neural translator sits in the middle of it. Every
NLP library the engine calls is modelled as an uninterpreted function: the
sentence splitters, normalizers, tokenizers, detokenizers, the transliterator,
the sentencepiece encoder and the translation backend. They are held as fields
of `Toolkit.Tools`. What the engine does around them is modelled and proved:

- how a paragraph is split into sentences;
- how sentences are preprocessed, encoded, cut into windows of at most 256
  tokens and tagged with language codes;
- how a batch of paragraphs is flattened into one backend call and cut back by
  index ranges;
- how the backend's hypotheses are filtered for leaked English;
- how translations are decoded, repaired, have their placeholders restored and
  are detokenized;
- how the language gate returns English-declared paragraphs with few Roman
  characters untranslated, with the character total computed as the engine
  computes it (see "Findings").

Modules, one per part of the engine:

- `PyStr` — the Python `str` operations the engine relies on, with Python's
  semantics: `split()`, `split(sep)`, `" ".join`, `strip()`, leftmost
  non-overlapping `replace`, and `isspace`.
- `Toolkit` — the external collaborators, the placeholder map type and the
  `Result` type.
- `Chunking` — `truncate_long_sentences`.
- `Tagging` — `add_token` and `apply_lang_tags`.
- `Selection` — `is_english` and the hypothesis selection of
  `ctranslate2_translate_lines`.
- `LanguageGate` — `char_percent_check` and the gate decision.
- `Preprocessing` — `split_sentences`, `preprocess_sent`, `preprocess`,
  `apply_spm` and `preprocess_batch`.
- `Postprocessing` — `postprocess`.
- `Orchestrator` — `paragraphs_batch_translate__multilingual`.

Loops that append to lists or rewrite list entries in place are methods with
loop invariants over local sequences. Each method is proved equal to a
specification function, and the properties the engine relies on are proved
about those functions as lemmas. The engine's objects only update local lists,
so no class is needed.

Three kinds of source behaviour are modelled as follows:

- A call that would raise in Python is excluded by a `requires`: an ISO code
  missing from `iso_to_flores`, or a target code that does not split into
  exactly two parts.
- The failing `assert` in `postprocess` is modelled as the `Failure` outcome of
  `Result`.
- A backend that returns fewer lines than it was given makes a paragraph's
  slice short, and so that paragraph's `postprocess` fails. This is also a
  `Failure` outcome.

## Model

| member | source | states |
|---|---|---|
| `PyStr.Split` | inference/engine.py:106 | `str.split()` returns only non-empty words without whitespace |
| `PyStr.SplitJoin` | inference/engine.py:106-112 | splitting a space-joined list of words gives the list back, so words survive the join of a window |
| `PyStr.SplitOn` | inference/engine.py:566 | `str.split(sep)` returns at least one piece, and no piece contains the separator |
| `PyStr.JoinSplitOn` | inference/engine.py:593 | joining the pieces of `s.split(sep)` with the separator gives `s` back |
| `PyStr.SplitOnFirst` | inference/engine.py:199-200 | the first piece of a split is the separator-free text before the first separator |
| `PyStr.SplitOnNone` | inference/engine.py:566 | a string without the separator splits into itself alone |
| `PyStr.SplitOnAfter` | inference/engine.py:566 | a separator-free head followed by the separator is the first piece, and the rest splits on its own |
| `PyStr.WordPrefix` | inference/engine.py:106 | the length of the leading run of non-whitespace, ending at whitespace or at the end |
| `PyStr.SplitWordThen` | inference/engine.py:106 | a word followed by whitespace (or nothing) is the first element of `split()` |
| `PyStr.LStrip` | inference/engine.py:83 | drops exactly the leading whitespace: the result is a suffix, what it removed is whitespace, and it starts with non-whitespace |
| `PyStr.RStrip` | inference/engine.py:83 | drops exactly the trailing whitespace: the result is a prefix, what it removed is whitespace, and it ends with non-whitespace |
| `PyStr.Strip` | inference/engine.py:83 | `strip()` leaves no whitespace at either end and never lengthens the string |
| `PyStr.StripStripped` | inference/engine.py:83 | stripping a string without outer whitespace changes nothing |
| `PyStr.StripLeadingSpace` | inference/engine.py:572 | a leading space added by decoding is removed by the strip |
| `PyStr.StripKeepsHead` | inference/engine.py:199 | a non-empty whitespace-free head survives `strip()` |
| `PyStr.ReplaceAbsent` | inference/engine.py:586 | replacing a pattern that does not occur leaves the string unchanged |
| `PyStr.ReplaceSkip` | inference/engine.py:586 | replacement passes over a prefix in which no occurrence starts |
| `PyStr.ReplaceSplice` | inference/engine.py:584-586 | a pattern that occurs once and cannot overlap itself is replaced by its value, and the text around it is kept |
| `PyStr.ReplaceOneChar` | inference/engine.py:46 | replacing a one-character pattern substitutes every occurrence of that character |
| `PyStr.ReplacePairRemovesAll` | inference/engine.py:580 | replacing a two-character pattern by a character that is neither of its two leaves no occurrence of the pattern |
| `PyStr.SubstRemoves` | inference/engine.py:46 | deleting every occurrence of a character leaves none |
| `PyStr.SubstAbsent` | inference/engine.py:572 | substituting a character that does not occur changes nothing |
| `PyStr.SubstBack` | inference/engine.py:572 | turning spaces into word marks and back restores a string that had no word mark |
| `PyStr.JoinDeleteSpaces` | inference/engine.py:572 | deleting the spaces of a space-joined list of space-free pieces concatenates the pieces |
| `PyStr.ReplaceOnlyMoves` | inference/engine.py:510 | a replacement whose pattern and value agree once spaces are deleted changes only the spacing |
| `PyStr.FlattenAppend` | inference/engine.py:356-357 | extending the global list with a part appends that part's items |
| `PyStr.Count` | inference/engine.py:271-274 | the number of matches of a one-character class is at most the length |
| `PyStr.CountDisjoint3` | inference/engine.py:271-291 | with three pairwise exclusive classes, the characters in none of two of them are exactly the rest, and they include every character of the third |
| `Chunking.CutWindows` | inference/engine.py:109-112 | the `while i <= len(words)` loop yields exactly the windows from 0 in steps of 256 |
| `Chunking.TruncateLongSentences` | inference/engine.py:88-119 | the returned sentences and maps are the chunk-by-chunk specification lists |
| `Chunking.WindowsCount` | inference/engine.py:109-112 | the loop from `start` produces `(len - start) / 256 + 1` windows |
| `Chunking.WindowAt` | inference/engine.py:109-112 | window k covers words `[start + 256k, start + 256k + 256)`, clipped at the end |
| `Chunking.WindowsWords` | inference/engine.py:109-112 | reading the windows' words back in order gives the words from `start` on |
| `Chunking.WindowsLastEmpty` | inference/engine.py:111 | when the remaining word count is a multiple of 256 the last window is the empty string |
| `Chunking.WindowsShort` | inference/engine.py:109-112 | every window holds at most 256 words |
| `Chunking.ShortSentenceChunks` | inference/engine.py:116-118 | a sentence of at most 256 words passes through unchanged |
| `Chunking.LongSentenceChunks` | inference/engine.py:106-115 | a sentence of L > 256 words becomes L/256 + 1 chunks of at most 256 words whose words give the sentence's words back in order, the last one empty when 256 divides L |
| `Chunking.TruncatedAligned` | inference/engine.py:105-119 | the two returned lists have the same length |
| `Chunking.TruncatedSnoc` | inference/engine.py:105-118 | one more sentence appends its chunks and one copy of its map per chunk |
| `Chunking.TruncatedAllShort` | inference/engine.py:102-119 | when no sentence exceeds 256 words, sentences and maps come back unchanged |
| `Chunking.FlatMapPrefix` | inference/engine.py:105-118 | processing more sentences only appends |
| `Chunking.FlatMapContiguous` | inference/engine.py:105-118 | the output of sentence j sits right after that of sentences 0..j-1 |
| `Chunking.MapsPrefix` | inference/engine.py:105-118 | processing more sentences only appends maps |
| `Chunking.PrefixSlice` | inference/engine.py:115 | in a list that starts with `a + b`, `b` sits right after `a` |
| `Chunking.PrefixRepeat` | inference/engine.py:114 | in a list that starts with `a` plus n copies of m, the n places after `a` hold m |
| `Chunking.ChunksContiguous` | inference/engine.py:105-118 | the chunks of sentence j are contiguous and follow those of sentences 0..j-1 |
| `Chunking.ChunkMaps` | inference/engine.py:113-114 | every chunk of sentence j carries sentence j's placeholder map |
| `Tagging.AddTokenFields` | inference/engine.py:51-65 | a tagged sentence is `src + " " + tgt + " " + sent`: split on spaces it starts with exactly the two codes, and the sentence follows them |
| `Tagging.ApplyLangTags` | inference/engine.py:68-85 | one tagged string per input sentence, in order, each built from the stripped sentence |
| `Selection.IsEnglish` | inference/engine.py:178-195 | true if and only if some character of some token is an ASCII letter outside the ignore list |
| `Selection.ChooseFromSpec` | inference/engine.py:218-232 | from rank j on, the selection returns the first clean hypothesis, or hypothesis 0 when every one leaks |
| `Selection.ChooseSpec` | inference/engine.py:214-233 | the chosen hypothesis is the best-ranked clean one, or the top one when all leak, so a clean one is chosen whenever one exists |
| `Selection.FirstCleanBelow` | inference/engine.py:218-230 | if a clean hypothesis exists, a best-ranked clean one exists at or above it |
| `Selection.SelectHypothesis` | inference/engine.py:217-232 | the loop over one translation's hypotheses, with the `I`/`D` ignore list exactly when the sentence had entities, returns the selection rule's choice |
| `Selection.SelectTranslations` | inference/engine.py:214-233 | one joined result per (translation, entity count) pair, each the selection rule's choice |
| `Selection.Ct2TranslateLines` | inference/engine.py:198-249 | the first token of the first line decides the direction: with English the selection rule applies, otherwise the top hypothesis is taken |
| `Selection.TaggedLineDirection` | inference/engine.py:199-200 | the first token of a tagged line is its source code, so the direction test reads the source language |
| `Selection.PlaceholderExemption` | inference/engine.py:220-226 | worked example of the ignore list: the hypothesis `<ID1>` is clean when the sentence had entities and leaks when it had none |
| `LanguageGate.BelowHalfExact` | inference/engine.py:305-307 | the integer test `total <= 0 or 2*roman < total` is exactly `ratio < 0.5`, including the zero and negative totals |
| `LanguageGate.HalfIsNotFlagged` | inference/engine.py:337 | a ratio of exactly one half is not flagged |
| `LanguageGate.TotalsDiffer` | inference/engine.py:291 | definitional link between the two totals: the one as written is the corrected one minus the newline count |
| `LanguageGate.ClassesDisjoint` | inference/engine.py:273-299 | Roman, special and whitespace characters are pairwise disjoint classes |
| `LanguageGate.CorrectedTotalCounts` | inference/engine.py:271-291 | with newlines subtracted once, the total is the number of residual characters that are neither whitespace nor special, and it is at least the Roman count |
| `LanguageGate.CorrectedRatioBounds` | inference/engine.py:255-307 | with the correction the ratio lies in [0, 1], and a paragraph whose counted characters are all Roman is not flagged |
| `LanguageGate.RatioUnit` | inference/engine.py:305-307 | a count over a total at least as large gives a ratio in [0, 1] |
| `LanguageGate.NewlineDoubleCount` | inference/engine.py:273-291 | "Hi\n\n" totals 0 as written, so it is flagged and returned untranslated; with the correction it totals 2 and is not flagged |
| `LanguageGate.HiCounts` | inference/engine.py:271-301 | worked example behind the finding: "Hi\n\n" has 2 whitespace, 2 newline, 0 special and 2 Roman characters |
| `Preprocessing.SplitSentencesSpec` | inference/engine.py:22-48 | English keeps the split with fewer sentences (Moses on a tie), with every soft hyphen deleted and nothing else changed; other languages get the indic-nlp split |
| `Preprocessing.FixViramaOnlySpacing` | inference/engine.py:510 | the virama fix changes only spacing |
| `Preprocessing.PreprocessSentSpec` | inference/engine.py:471-517 | the map is the one masking produced; untransliterated output splits back into the tokenizer's tokens; transliterated output differs from the transliteration only in spacing |
| `Preprocessing.Texts` | inference/engine.py:539-544 | one processed sentence per input sentence |
| `Preprocessing.Entities` | inference/engine.py:539-544 | one placeholder map per input sentence |
| `Preprocessing.Preprocess` | inference/engine.py:519-544 | the loop returns each sentence's processed text and placeholder map, in order |
| `Preprocessing.PreprocessedSnoc` | inference/engine.py:539-542 | one more sentence appends its processed text and its map |
| `Preprocessing.ApplySpm` | inference/engine.py:459-469 | one encoded line per sentence |
| `Preprocessing.ApplySpmPieces` | inference/engine.py:469 | the whitespace words of an encoded line are its sentencepiece pieces, so the 256-token limit counts pieces |
| `Preprocessing.BatchTagged` | inference/engine.py:455 | one tagged line per truncated line |
| `Preprocessing.BatchAligned` | inference/engine.py:437-457 | the tagged lines and the placeholder maps of a batch have the same length |
| `Preprocessing.PreprocessBatch` | inference/engine.py:437-457 | preprocess, encode, truncate and tag, returning one placeholder map per tagged line |
| `Preprocessing.BatchShort` | inference/engine.py:450-457 | a batch with no sentence over 256 pieces gives one line per sentence, each with its own map |
| `Postprocessing.SpmDecodeRoundTrip` | inference/engine.py:572 | decoding inverts sentencepiece encoding for a stripped sentence without word marks |
| `Postprocessing.PunctuationFixOnlySpacing` | inference/engine.py:578 | the Perso-Arabic punctuation fix changes only spacing |
| `Postprocessing.KashmiriFixComplete` | inference/engine.py:580 | after the Kashmiri fix no dotless beh is followed by the low stop |
| `Postprocessing.UnmaskIdentity` | inference/engine.py:584-586 | a sentence containing no placeholder comes back unchanged |
| `Postprocessing.UnmaskRestores` | inference/engine.py:584-586 | special case of one placeholder: when the first key of the map occurs once and no later key occurs after its replacement, that key is replaced by its entity and the rest of the sentence is kept |
| `Postprocessing.UnmaskSlot` | inference/engine.py:586 | replacing the key of the entry that fills slot i, absent from both sides of the slot, puts the entity into the slot and keeps both sides |
| `Postprocessing.UnmaskStep` | inference/engine.py:585-586 | one round of the key loop turns the template restored up to entry e into the template restored up to entry e + 1, whether or not entry e has a slot |
| `Postprocessing.UnmaskFrom` | inference/engine.py:585-586 | the key loop from entry j on restores every remaining entry of the template |
| `Postprocessing.UnmaskRestoresAll` | inference/engine.py:584-586 | a translation made of text pieces and any number of placeholders, each map entry in at most one slot, comes back with every placeholder replaced by its own entity and the text pieces kept, provided each key, in its turn, occurs only in its own slot |
| `Postprocessing.EnglishCodes` | inference/engine.py:566 | worked example: "eng_Latn" splits into exactly "eng" and "Latn" |
| `Postprocessing.DetokenizeOdia` | inference/engine.py:605-606 | Odia output never keeps ya followed by nukta |
| `Postprocessing.DecodeLines` | inference/engine.py:568-580 | the in-place loop decodes every line and applies the Perso-Arabic fixes exactly when the script is Arab or Aran |
| `Postprocessing.UnmaskLine` | inference/engine.py:585-586 | the key loop replaces the placeholders one after another, in the map's order |
| `Postprocessing.UnmaskLines` | inference/engine.py:584-586 | the in-place loop restores every line with its own map |
| `Postprocessing.DetokenizedLines` | inference/engine.py:589-610 | one output line per input line |
| `Postprocessing.DetokenizedSnoc` | inference/engine.py:592-608 | one more line appends its detokenization |
| `Postprocessing.DetokenizeLines` | inference/engine.py:589-610 | the last loops return every line detokenized, in order |
| `Postprocessing.PostLines` | inference/engine.py:546-610 | one postprocessed line per translated line |
| `Postprocessing.Postprocess` | inference/engine.py:546-610 | fails exactly when lines and maps differ in number; otherwise every line is decoded, fixed, restored with its own map and detokenized |
| `Orchestrator.ParaMaps` | inference/engine.py:346 | a paragraph contributes one placeholder map per line |
| `Orchestrator.Lines` | inference/engine.py:356 | one list of lines per paragraph |
| `Orchestrator.Maps` | inference/engine.py:357 | one list of maps per paragraph |
| `Orchestrator.Tgts` | inference/engine.py:364-366 | one target code per paragraph, each splitting into language and script |
| `Orchestrator.Start` | inference/engine.py:355 | a paragraph's start lies within the global list |
| `Orchestrator.StartEnds` | inference/engine.py:355-358 | the first range starts at 0 and the last ends at the end of the list |
| `Orchestrator.PartRange` | inference/engine.py:355-358 | part k sits in the concatenation between its start and the next part's start |
| `Orchestrator.SameStarts` | inference/engine.py:356-357 | the global lines and maps have the same length and the same paragraph starts |
| `Orchestrator.ParagraphRange` | inference/engine.py:355-358 | each range starts where the previous ends, is as long as the paragraph's line count, and holds exactly its lines and its maps |
| `Orchestrator.RangesCover` | inference/engine.py:355-358 | the ranges start at 0 and end at the end of both global lists |
| `Orchestrator.Slice` | inference/engine.py:369-370 | Python's clipped slice: the exact slice within bounds, and shorter than the range when the list ends early |
| `Orchestrator.ReassembleOne` | inference/engine.py:368-373 | a paragraph's range postprocessed and joined with spaces, or a failure when the output ends before the range does |
| `Orchestrator.ReassembledAt` | inference/engine.py:368-373 | paragraph k's translation is its own ranges of the output and the maps, postprocessed and joined |
| `Orchestrator.ReassembleStep` | inference/engine.py:363-374 | one round appends paragraph k's translation, or fails exactly when the output ends before k's range does |
| `Orchestrator.Reassemble` | inference/engine.py:362-374 | one translation per paragraph when the output covers every line, a failure otherwise |
| `Orchestrator.GateFlags` | inference/engine.py:335-338 | one gate decision per paragraph, each with the total as written |
| `Orchestrator.Paragraphs` | inference/engine.py:329 | one text per paragraph |
| `Orchestrator.OverridesStep` | inference/engine.py:335-338 | recording paragraph i adds `(i, text)` to the override entries exactly when it is flagged |
| `Orchestrator.AppendCounts` | inference/engine.py:349-351 | the inner loop appends the placeholder count of every map |
| `Orchestrator.CollectedStep` | inference/engine.py:343-358 | appending a paragraph's lines, maps, counts and range keeps the global lists consistent |
| `Orchestrator.CollectedEnds` | inference/engine.py:321-358 | the lists start empty and, after the last paragraph, are the concatenations with one range per paragraph |
| `Orchestrator.AppendParagraph` | inference/engine.py:343-358 | a paragraph's lines, maps and counts are appended, and its range is where its lines landed |
| `Orchestrator.CollectParagraph` | inference/engine.py:328-358 | one round of the first loop keeps the global lists and the override entries consistent, recording the paragraph when it is English-declared and its ratio with the total as written is below one half |
| `Orchestrator.CollectBatch` | inference/engine.py:321-358 | the first loop builds the concatenated lines and maps, `len_id`, one range per paragraph and exactly the overrides of the paragraphs the gate as written flags |
| `Orchestrator.ApplyOverrides` | inference/engine.py:377-378 | overridden paragraphs get their original text and every other output is unchanged |
| `Orchestrator.OutputSpec` | inference/engine.py:362-381 | a paragraph the gate as written flags is output verbatim; any other is its own range of the answers, postprocessed with its own maps and target, and space-joined |
| `Orchestrator.GateRule` | inference/engine.py:335-338 | only English-declared paragraphs are gated, exactly when their ratio over the total as written is below one half, and always when that total is 0 or negative |
| `Orchestrator.NewlineParagraphKept` | inference/engine.py:335-378 | the newline double count reaches the batch output: an English-declared "Hi\n\n" without e-mails or URLs is gated and returned untranslated |
| `Orchestrator.TranslateBatch` | inference/engine.py:310-381 | one output per payload, each the original text when the gate as written flags it, otherwise the paragraph's translation; a failure when the backend returns fewer lines than it was given |

## Left out

- The NLP libraries are uninterpreted fields of `Toolkit.Tools`. They are the sentence splitters, `punc_norm`, `normalize`, the Moses and indic-nlp normalizers, tokenizers and detokenizers, the transliterator, the sentencepiece encoder and the translation backend. Their properties are hypotheses of the lemmas that need them, such as space-free pieces.
- The e-mail and URL regular expressions of `char_percent_check` are an input (`EmailUrlScan`): the total length of each kind of match, and the residual text.
- Regular-expression `\s` is modelled with the same character set as `str.isspace`. The two differ on a few control characters.
- The `print` diagnostics are left out.
- Model construction, checkpoints, devices and the fairseq backend are left out. So are the translator options and `translate_paragraph`.
- `batch_translate` is left out. It calls `translate_lines` with one argument, which the ctranslate2 backend does not accept.
- Orchestrator.TranslateBatch: does not model that `char_percent_check` is declared without `self` yet called as a method, which would raise on every English-declared paragraph. The model uses the intended standalone function.
- Selection.Ct2TranslateLines: requires a non-empty batch, because `tokenized_sents[0][0]` raises on an empty one.
- Selection.Ct2TranslateLines: requires every translation to have at least one hypothesis, because `hypotheses[0]` raises IndexError on an empty list (inference/engine.py:232, 248); the raising path is not modelled.
- Selection.SelectTranslations: requires every translation to have at least one hypothesis, because `i.hypotheses[0]` raises IndexError on an empty list (inference/engine.py:232); the raising path is not modelled.
- Preprocessing.PreprocessSent: requires that English maps to the ISO code "en", because `preprocess` passes no normalizer for English.
- Orchestrator.TranslateBatch: requires that every code can be resolved, which excludes the KeyError of `iso_to_flores`.
- Orchestrator.TranslateBatch: requires that every target code splits into exactly two parts, which excludes the ValueError of `lang.split("_")`.
- Orchestrator.TranslateBatch: requires every source code to split into at least two parts on `_`. The engine only indexes `lang.split("_")[1]` when a paragraph has a sentence (inference/engine.py:494), so a paragraph without sentences and with such a code is accepted by the engine but excluded here.
- Postprocessing.UnmaskRestoresAll: covers translations that are a template of text pieces and slots in which each key, when its turn comes, occurs only in its own slot. A key that the translation repeats, or that appears inside an earlier entity, is not covered.
- Placeholder maps are sequences of (placeholder, entity) pairs in insertion order, which is the order `postprocess` uses. Python dict keys are unique; the model does not require this, and nothing it proves depends on it.
- The model does not capture list aliasing. The loops in the engine rebind `sents`, shadow `i` and mutate lists in place. The model uses fresh local sequences with the same contents, and the shadowed `i` does not change which index is recorded.
- `global__sents` is written but never read, so it is left out.
- The gate ratio is compared as exact integers and rationals, not as floating point.
- `Orchestrator.Reassembled` is the empty string for a paragraph whose range the output does not cover. `Orchestrator.TranslateBatch` fails in that case, so the value is never returned.
- Each replacement in the Perso-Arabic and Odia fixes runs once over the string, as `str.replace` does.

## Findings

| source | as written | input that shows it | evidently intended | confidence | as-written member | corrected member |
|---|---|---|---|---|---|---|
| inference/engine.py:273-291 | `total_chars` subtracts the whitespace count and the newline count. Every newline is also whitespace, so each newline is subtracted twice and the total can reach 0 or go negative. | The English paragraph "Hi\n\n" has 2 Roman characters and 2 newlines. Its total is 4 - (2 + 2) = 0, so its ratio is 0 and it is returned untranslated. | Each newline is subtracted once. Then the total counts the characters that are neither whitespace nor special, the ratio lies in [0, 1], and "Hi\n\n" has ratio 1 and is translated. | not executed | `LanguageGate.NewlineDoubleCount`, `Orchestrator.NewlineParagraphKept` | `LanguageGate.CorrectedRatioBounds` |

The orchestration (`Orchestrator.Gated` and everything built on it) follows the
code as written and uses `LanguageGate.FlaggedAsWritten`.
`LanguageGate.Flagged` is the corrected gate, and `LanguageGate.CorrectedRatioBounds`
states what the correction guarantees.
