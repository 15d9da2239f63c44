/** `Model.paragraphs_batch_translate__multilingual`: every paragraph of a batch is
    split into sentences and preprocessed, all lines of all paragraphs are
    translated in one backend call, each paragraph's lines are cut back out of the
    result by its index range, postprocessed and joined with spaces, and finally
    English-declared paragraphs the language gate flags are replaced by their
    original text. */
module Orchestrator {
  import opened PyStr
  import opened Toolkit
  import opened LanguageGate
  import opened Preprocessing
  import opened Postprocessing

  /** One request: `(paragraph, src_lang, tgt_lang)`. */
  datatype Payload = Payload(paragraph: string, srcLang: string, tgtLang: string)

  /** `input_lang_code_format`: FLORES codes, or ISO codes mapped through `iso_to_flores`. */
  datatype CodeFormat = Flores | Iso

  /** What a `Model` holds that the orchestration depends on. */
  datatype Config = Config(format: CodeFormat, isoToFlores: map<string, string>, tools: Tools)

  /** A code as the pipeline uses it; an ISO code missing from the table is a KeyError. */
  function Resolve(code: string, cfg: Config): string
    requires cfg.format == Iso ==> code in cfg.isoToFlores
  {
    if cfg.format == Iso then cfg.isoToFlores[code] else code
  }

  /** A payload the source can process without raising: its codes resolve, the source
      code has a script part, English maps to "en", and the target code splits into
      exactly a language and a script. */
  predicate Processable(p: Payload, cfg: Config) {
    && (cfg.format == Iso ==> p.srcLang in cfg.isoToFlores && p.tgtLang in cfg.isoToFlores)
    && |SplitOn(Resolve(p.srcLang, cfg), '_')| >= 2
    && (Resolve(p.srcLang, cfg) == ENGLISH ==> cfg.tools.isoCode(ENGLISH) == "en")
    && |SplitOn(Resolve(p.tgtLang, cfg), '_')| == 2
  }

  function Src(p: Payload, cfg: Config): string
    requires Processable(p, cfg)
  {
    Resolve(p.srcLang, cfg)
  }

  function Tgt(p: Payload, cfg: Config): string
    requires Processable(p, cfg)
  {
    Resolve(p.tgtLang, cfg)
  }

  /** The sentences of a paragraph. */
  function Sentences(p: Payload, cfg: Config): seq<string>
    requires Processable(p, cfg)
  {
    SplitSentences(p.paragraph, Src(p, cfg), cfg.tools)
  }

  /** The tagged lines a paragraph contributes to the backend call. */
  function ParaLines(p: Payload, cfg: Config): seq<string>
    requires Processable(p, cfg)
  {
    BatchTagged(Sentences(p, cfg), Src(p, cfg), Tgt(p, cfg), cfg.tools)
  }

  /** The placeholder maps of those lines. */
  function ParaMaps(p: Payload, cfg: Config): (maps: seq<EntityMap>)
    requires Processable(p, cfg)
    ensures |maps| == |ParaLines(p, cfg)|
  {
    BatchAligned(Sentences(p, cfg), Src(p, cfg), Tgt(p, cfg), cfg.tools);
    BatchMaps(Sentences(p, cfg), Src(p, cfg), cfg.tools)
  }

  predicate AllProcessable(ps: seq<Payload>, cfg: Config) {
    forall k :: 0 <= k < |ps| ==> Processable(ps[k], cfg)
  }

  /** The lines of every paragraph, paragraph by paragraph. */
  function Lines(ps: seq<Payload>, cfg: Config): (lines: seq<seq<string>>)
    requires AllProcessable(ps, cfg)
    ensures |lines| == |ps|
  {
    seq(|ps|, k requires 0 <= k < |ps| => ParaLines(ps[k], cfg))
  }

  /** The placeholder maps of every paragraph, paragraph by paragraph. */
  function Maps(ps: seq<Payload>, cfg: Config): (maps: seq<seq<EntityMap>>)
    requires AllProcessable(ps, cfg)
    ensures |maps| == |ps|
  {
    seq(|ps|, k requires 0 <= k < |ps| => ParaMaps(ps[k], cfg))
  }

  /** Every target code, resolved. */
  function Tgts(ps: seq<Payload>, cfg: Config): (tgts: seq<string>)
    requires AllProcessable(ps, cfg)
    ensures |tgts| == |ps| && Targets(tgts)
  {
    seq(|ps|, k requires 0 <= k < |ps| => Tgt(ps[k], cfg))
  }

  /** `global__preprocessed_sents`: the lines of all paragraphs, paragraph after paragraph. */
  function AllLines(ps: seq<Payload>, cfg: Config): seq<string>
    requires AllProcessable(ps, cfg)
  {
    Flatten(Lines(ps, cfg))
  }

  /** `global__preprocessed_sents_placeholder_entity_map`. */
  function AllMaps(ps: seq<Payload>, cfg: Config): seq<EntityMap>
    requires AllProcessable(ps, cfg)
  {
    Flatten(Maps(ps, cfg))
  }

  /** `len_id`: the number of placeholders of every line. */
  function EntityCounts(maps: seq<EntityMap>): (counts: seq<nat>)
    ensures |counts| == |maps|
    ensures forall t :: 0 <= t < |maps| ==> counts[t] == |maps[t]|
  {
    seq(|maps|, t requires 0 <= t < |maps| => |maps[t]|)
  }

  /** The language gate as the source decides it: an English-declared paragraph whose
      Roman share, with the total of `char_percent_check` as written, is below one
      half keeps its original text. */
  predicate Gated(p: Payload, cfg: Config)
    requires Processable(p, cfg)
  {
    Src(p, cfg) == ENGLISH && FlaggedAsWritten(p.paragraph, cfg.tools.scanEmailsUrls(p.paragraph))
  }

  // ---------------------------------------------------------------------------
  // Index ranges

  /** Where part k starts in the concatenation of the parts. */
  function Start<T>(parts: seq<seq<T>>, k: nat): (n: nat)
    requires k <= |parts|
    ensures n <= |Flatten(parts)|
  {
    assert parts == parts[..k] + parts[k..];
    FlattenAppend(parts[..k], parts[k..]);
    |Flatten(parts[..k])|
  }

  lemma FlattenOne<T>(x: seq<T>)
    ensures Flatten([x]) == x
  {
    assert [x][1..] == [];
  }

  lemma AppendPart<T>(parts: seq<seq<T>>, k: nat)
    requires k < |parts|
    ensures Flatten(parts[..k + 1]) == Flatten(parts[..k]) + parts[k]
  {
    assert parts[..k + 1] == parts[..k] + [parts[k]];
    FlattenAppend(parts[..k], [parts[k]]);
    FlattenOne(parts[k]);
  }

  /** The first part starts at 0 and the last one ends at the end. */
  lemma StartEnds<T>(parts: seq<seq<T>>)
    ensures Start(parts, 0) == 0 && Start(parts, |parts|) == |Flatten(parts)|
  {
    assert parts[..0] == [];
    assert parts[..|parts|] == parts;
  }

  /** Part k sits in the concatenation from `Start(parts, k)` to `Start(parts, k + 1)`. */
  lemma PartRange<T>(parts: seq<seq<T>>, k: nat)
    requires k < |parts|
    ensures Start(parts, k) + |parts[k]| == Start(parts, k + 1) <= |Flatten(parts)|
    ensures Flatten(parts)[Start(parts, k)..Start(parts, k + 1)] == parts[k]
  {
    assert parts == parts[..k + 1] + parts[k + 1..];
    AppendPart(parts, k);
    FlattenAppend(parts[..k + 1], parts[k + 1..]);
  }

  /** Two lists of parts of the same lengths concatenate to the same length. */
  lemma {:induction false} FlattenSameShape<T, U>(a: seq<seq<T>>, b: seq<seq<U>>)
    requires |a| == |b|
    requires forall k :: 0 <= k < |a| ==> |a[k]| == |b[k]|
    ensures |Flatten(a)| == |Flatten(b)|
  {
    if a != [] {
      FlattenSameShape(a[1..], b[1..]);
    }
  }

  /** The lines and the maps of a batch have the same ranges. */
  lemma SameStarts(ps: seq<Payload>, cfg: Config)
    requires AllProcessable(ps, cfg)
    ensures |AllLines(ps, cfg)| == |AllMaps(ps, cfg)|
    ensures forall k :: 0 <= k <= |ps| ==> Start(Lines(ps, cfg), k) == Start(Maps(ps, cfg), k)
  {
    var lines := Lines(ps, cfg);
    var maps := Maps(ps, cfg);
    assert forall k :: 0 <= k < |ps| ==> |lines[k]| == |maps[k]|;
    FlattenSameShape(lines, maps);
    forall k | 0 <= k <= |ps| ensures Start(lines, k) == Start(maps, k) {
      FlattenSameShape(lines[..k], maps[..k]);
    }
  }

  /** The recorded ranges: paragraph k's range starts where paragraph k-1's ends, is
      as long as its number of lines, and holds exactly its lines in the global list
      and its placeholder maps in the global map list. */
  lemma ParagraphRange(ps: seq<Payload>, cfg: Config, k: nat)
    requires AllProcessable(ps, cfg) && k < |ps|
    ensures Start(Lines(ps, cfg), k) + |ParaLines(ps[k], cfg)| == Start(Lines(ps, cfg), k + 1)
    ensures Start(Lines(ps, cfg), k + 1) <= |AllLines(ps, cfg)| == |AllMaps(ps, cfg)|
    ensures AllLines(ps, cfg)[Start(Lines(ps, cfg), k)..Start(Lines(ps, cfg), k + 1)] == ParaLines(ps[k], cfg)
    ensures AllMaps(ps, cfg)[Start(Lines(ps, cfg), k)..Start(Lines(ps, cfg), k + 1)] == ParaMaps(ps[k], cfg)
  {
    PartRange(Lines(ps, cfg), k);
    PartRange(Maps(ps, cfg), k);
    SameStarts(ps, cfg);
  }

  /** The first range starts at 0 and the last one ends at the end of both global
      lists, so together the ranges cover them. */
  lemma RangesCover(ps: seq<Payload>, cfg: Config)
    requires AllProcessable(ps, cfg)
    ensures Start(Lines(ps, cfg), 0) == 0
    ensures Start(Lines(ps, cfg), |ps|) == |AllLines(ps, cfg)| == |AllMaps(ps, cfg)|
  {
    StartEnds(Lines(ps, cfg));
    SameStarts(ps, cfg);
  }

  // ---------------------------------------------------------------------------
  // Reassembly

  /** Target codes `postprocess` accepts. */
  predicate Targets(tgts: seq<string>) {
    forall k :: 0 <= k < |tgts| ==> |SplitOn(tgts[k], '_')| == 2
  }

  /** The translation of paragraph k: its range of the backend's output,
      postprocessed with its placeholder maps and joined with spaces. It is defined
      for every paragraph whose range the output covers, and empty elsewhere. */
  function Reassembled(paraMaps: seq<seq<EntityMap>>, tgts: seq<string>, k: nat,
                       translations: seq<string>, tools: Tools): string
  {
    if k < |paraMaps| && k < |tgts| && |SplitOn(tgts[k], '_')| == 2 && Start(paraMaps, k + 1) <= |translations| then
      PartRange(paraMaps, k);
      var lo := Start(paraMaps, k);
      var hi := Start(paraMaps, k + 1);
      Join(" ", PostLines(translations[lo..hi], paraMaps[k], tgts[k], tools))
    else ""
  }

  /** Python's `xs[lo:hi]` for `0 <= lo <= hi`: both bounds clipped to the length. */
  function Slice<T>(xs: seq<T>, lo: nat, hi: nat): (r: seq<T>)
    requires lo <= hi
    ensures hi <= |xs| ==> r == xs[lo..hi]
    ensures |xs| < hi && lo < hi ==> |r| < hi - lo
  {
    var a := if lo < |xs| then lo else |xs|;
    var b := if hi < |xs| then hi else |xs|;
    xs[a..b]
  }

  /** One paragraph of the second loop: `translations[lo:hi]` postprocessed with
      `placeholder_entity_map[lo:hi]` and joined with spaces. The slice is short only
      when the backend returned fewer lines than the range ends at, and then
      `postprocess` fails. */
  method ReassembleOne(lo: nat, hi: nat, maps: seq<EntityMap>, translations: seq<string>, tgt: string, tools: Tools)
    returns (r: Result<string>)
    requires lo <= hi <= |maps| && lo <= |translations|
    requires |SplitOn(tgt, '_')| == 2
    ensures hi <= |translations| ==> r == Success(Join(" ", PostLines(translations[lo..hi], maps[lo..hi], tgt, tools)))
    ensures |translations| < hi ==> r.Failure?
  {
    var sents := Slice(translations, lo, hi);
    var post := Postprocess(sents, maps[lo..hi], tgt, tools);
    if post.Failure? {
      return Failure(post.error);
    }
    r := Success(Join(" ", post.value));
  }

  /** Paragraph k's translation is its own range of the output and of the global
      map list, postprocessed and joined. */
  lemma ReassembledAt(paraMaps: seq<seq<EntityMap>>, tgts: seq<string>, k: nat,
                      maps: seq<EntityMap>, translations: seq<string>, tools: Tools)
    requires |paraMaps| == |tgts| && Targets(tgts) && k < |paraMaps|
    requires maps == Flatten(paraMaps)
    requires Start(paraMaps, k + 1) <= |translations|
    ensures Start(paraMaps, k) <= Start(paraMaps, k + 1) <= |maps|
    ensures Reassembled(paraMaps, tgts, k, translations, tools)
         == Join(" ", PostLines(translations[Start(paraMaps, k)..Start(paraMaps, k + 1)],
                                maps[Start(paraMaps, k)..Start(paraMaps, k + 1)], tgts[k], tools))
  {
    PartRange(paraMaps, k);
  }

  /** One round of the second loop: paragraph k's translation is appended to those
      of the paragraphs before it, or the round fails because the output ends before
      paragraph k's range does. */
  method ReassembleStep(paraMaps: seq<seq<EntityMap>>, tgts: seq<string>, k: nat, lo: nat, hi: nat,
                        maps: seq<EntityMap>, translations: seq<string>, tools: Tools, translated: seq<string>)
    returns (r: Result<seq<string>>)
    requires |paraMaps| == |tgts| && Targets(tgts) && k < |paraMaps|
    requires maps == Flatten(paraMaps)
    requires lo == Start(paraMaps, k) && hi == Start(paraMaps, k + 1)
    requires lo <= |translations|
    requires |translated| == k
    requires forall j :: 0 <= j < k ==> translated[j] == Reassembled(paraMaps, tgts, j, translations, tools)
    ensures r.Failure? <==> |translations| < hi
    ensures r.Success? ==>
      && |r.value| == k + 1
      && forall j :: 0 <= j < k + 1 ==> r.value[j] == Reassembled(paraMaps, tgts, j, translations, tools)
  {
    PartRange(paraMaps, k);
    var one := ReassembleOne(lo, hi, maps, translations, tgts[k], tools);
    if one.Failure? {
      return Failure(one.error);
    }
    ReassembledAt(paraMaps, tgts, k, maps, translations, tools);
    var out := translated + [one.value];
    forall j | 0 <= j < k + 1 ensures out[j] == Reassembled(paraMaps, tgts, j, translations, tools) {
      if j < k {
        assert out[j] == translated[j];
      }
    }
    r := Success(out);
  }

  /** The second loop: cut each paragraph's translations out by its range, postprocess
      them and join them with spaces. A backend that returned fewer lines than it was
      given makes the slice of the paragraph where it runs out short, and `postprocess`
      fails on it. */
  method Reassemble(paraMaps: seq<seq<EntityMap>>, tgts: seq<string>, ranges: seq<(nat, nat)>,
                    maps: seq<EntityMap>, translations: seq<string>, tools: Tools)
    returns (r: Result<seq<string>>)
    requires |paraMaps| == |tgts| && Targets(tgts)
    requires maps == Flatten(paraMaps)
    requires |ranges| == |paraMaps|
    requires forall k :: 0 <= k < |ranges| ==> ranges[k] == (Start(paraMaps, k), Start(paraMaps, k + 1))
    ensures |translations| < |maps| ==> r.Failure?
    ensures |maps| <= |translations| ==>
      && r.Success? && |r.value| == |paraMaps|
      && forall k :: 0 <= k < |paraMaps| ==> r.value[k] == Reassembled(paraMaps, tgts, k, translations, tools)
  {
    StartEnds(paraMaps);
    var translated: seq<string> := [];
    for k := 0 to |ranges|
      invariant |translated| == k
      invariant Start(paraMaps, k) <= |translations|
      invariant forall j :: 0 <= j < k ==> translated[j] == Reassembled(paraMaps, tgts, j, translations, tools)
    {
      assert ranges[k] == (Start(paraMaps, k), Start(paraMaps, k + 1));
      var (lo, hi) := ranges[k];
      var step := ReassembleStep(paraMaps, tgts, k, lo, hi, maps, translations, tools, translated);
      if step.Failure? {
        PartRange(paraMaps, k);
        return step;
      }
      translated := step.value;
    }
    r := Success(translated);
  }

  // ---------------------------------------------------------------------------
  // The orchestration

  /** Whether each paragraph is gated. */
  function GateFlags(ps: seq<Payload>, cfg: Config): (flags: seq<bool>)
    requires AllProcessable(ps, cfg)
    ensures |flags| == |ps|
  {
    seq(|ps|, k requires 0 <= k < |ps| => Gated(ps[k], cfg))
  }

  /** The text of each paragraph. */
  function Paragraphs(ps: seq<Payload>): (texts: seq<string>)
    ensures |texts| == |ps|
  {
    seq(|ps|, k requires 0 <= k < |ps| => ps[k].paragraph)
  }

  /** The override dictionary after the first n paragraphs, as its entries: the keys
      are paragraph indices in increasing order, exactly those of the flagged
      paragraphs below n, each with its text. */
  predicate OverridesOf(entries: seq<(nat, string)>, flags: seq<bool>, texts: seq<string>, n: nat)
    requires n <= |flags| == |texts|
  {
    && (forall e :: 0 <= e < |entries| ==>
          entries[e].0 < n && flags[entries[e].0] && entries[e].1 == texts[entries[e].0])
    && (forall k :: 0 <= k < n && flags[k] ==> exists e :: 0 <= e < |entries| && entries[e].0 == k)
    && (forall e, f :: 0 <= e < f < |entries| ==> entries[e].0 < entries[f].0)
  }

  /** Recording paragraph i extends the override entries by (i, text) exactly when it
      is flagged. */
  lemma OverridesStep(entries: seq<(nat, string)>, flags: seq<bool>, texts: seq<string>, i: nat)
    requires i < |flags| == |texts|
    requires OverridesOf(entries, flags, texts, i)
    ensures flags[i] ==> OverridesOf(entries + [(i, texts[i])], flags, texts, i + 1)
    ensures !flags[i] ==> OverridesOf(entries, flags, texts, i + 1)
  {
    if flags[i] {
      var next := entries + [(i, texts[i])];
      forall k | 0 <= k < i + 1 && flags[k]
        ensures exists e :: 0 <= e < |next| && next[e].0 == k
      {
        if k < i {
          var e :| 0 <= e < |entries| && entries[e].0 == k;
          assert next[e] == entries[e];
        } else {
          assert next[|entries|].0 == k;
        }
      }
    }
  }

  lemma EntityCountsAppend(a: seq<EntityMap>, b: seq<EntityMap>)
    ensures EntityCounts(a + b) == EntityCounts(a) + EntityCounts(b)
  {
  }

  /** The inner loop of the first loop: `len_id.append(len(m))` for every placeholder
      map of the paragraph. */
  method AppendCounts(lenId: seq<nat>, entities: seq<EntityMap>) returns (out: seq<nat>)
    ensures out == lenId + EntityCounts(entities)
  {
    out := lenId;
    for t := 0 to |entities|
      invariant out == lenId + EntityCounts(entities[..t])
    {
      out := out + [|entities[t]|];
    }
    assert entities[..|entities|] == entities;
  }

  /** The global lists after the first n paragraphs, given every paragraph's lines and
      placeholder maps: their concatenations, the placeholder counts and one index
      range per paragraph. */
  ghost predicate Collected(lineParts: seq<seq<string>>, mapParts: seq<seq<EntityMap>>, n: nat,
                            lines: seq<string>, maps: seq<EntityMap>, lenId: seq<nat>, ranges: seq<(nat, nat)>)
    requires n <= |lineParts| && n <= |mapParts|
  {
    && lines == Flatten(lineParts[..n]) && maps == Flatten(mapParts[..n])
    && lenId == EntityCounts(maps)
    && |ranges| == n
    && forall k :: 0 <= k < n ==> ranges[k] == (Start(lineParts, k), Start(lineParts, k + 1))
  }

  /** Appending paragraph i's lines, maps, counts and range keeps the lists collected. */
  lemma CollectedStep(lineParts: seq<seq<string>>, mapParts: seq<seq<EntityMap>>, i: nat,
                      lines: seq<string>, maps: seq<EntityMap>, lenId: seq<nat>, ranges: seq<(nat, nat)>)
    requires i < |lineParts| && i < |mapParts|
    requires Collected(lineParts, mapParts, i, lines, maps, lenId, ranges)
    ensures Collected(lineParts, mapParts, i + 1, lines + lineParts[i], maps + mapParts[i],
                      lenId + EntityCounts(mapParts[i]), ranges + [(|lines|, |lines| + |lineParts[i]|)])
  {
    AppendPart(lineParts, i);
    AppendPart(mapParts, i);
    EntityCountsAppend(maps, mapParts[i]);
  }

  /** Nothing is collected before the first paragraph, and everything after the last. */
  lemma CollectedEnds(lineParts: seq<seq<string>>, mapParts: seq<seq<EntityMap>>,
                      lines: seq<string>, maps: seq<EntityMap>, lenId: seq<nat>, ranges: seq<(nat, nat)>)
    requires |lineParts| == |mapParts|
    ensures Collected(lineParts, mapParts, 0, [], [], [], [])
    ensures Collected(lineParts, mapParts, |lineParts|, lines, maps, lenId, ranges) ==>
      && lines == Flatten(lineParts) && maps == Flatten(mapParts)
      && lenId == EntityCounts(maps)
      && |ranges| == |lineParts|
      && forall k :: 0 <= k < |lineParts| ==> ranges[k] == (Start(lineParts, k), Start(lineParts, k + 1))
  {
    assert lineParts[..0] == [] && mapParts[..0] == [];
    assert lineParts[..|lineParts|] == lineParts;
    assert mapParts[..|mapParts|] == mapParts;
  }

  /** The first loop's work on one paragraph after the gate: split it, preprocess the
      sentences, record their placeholder counts and append the lines and the maps to
      the global lists; the paragraph's range is where its lines landed. */
  method AppendParagraph(p: Payload, cfg: Config, lines: seq<string>, maps: seq<EntityMap>, lenId: seq<nat>)
    returns (lines': seq<string>, maps': seq<EntityMap>, lenId': seq<nat>, range: (nat, nat))
    requires Processable(p, cfg)
    ensures lines' == lines + ParaLines(p, cfg) && maps' == maps + ParaMaps(p, cfg)
    ensures lenId' == lenId + EntityCounts(ParaMaps(p, cfg))
    ensures range == (|lines|, |lines'|)
  {
    var src := Resolve(p.srcLang, cfg);
    var tgt := Resolve(p.tgtLang, cfg);
    var batch := SplitSentences(p.paragraph, src, cfg.tools);
    var tagged, entities := PreprocessBatch(batch, src, tgt, cfg.tools);
    lenId' := AppendCounts(lenId, entities);
    lines' := lines + tagged;
    maps' := maps + entities;
    range := (|lines|, |lines'|);
  }

  /** One round of the first loop: the gate records paragraph i in the override
      dictionary when it is flagged, and its lines, maps, counts and range are
      appended to the global lists. */
  method CollectParagraph(ps: seq<Payload>, cfg: Config, i: nat, lines: seq<string>, maps: seq<EntityMap>,
                          lenId: seq<nat>, ranges: seq<(nat, nat)>, nonEnglish: seq<(nat, string)>)
    returns (lines': seq<string>, maps': seq<EntityMap>, lenId': seq<nat>,
             ranges': seq<(nat, nat)>, nonEnglish': seq<(nat, string)>)
    requires AllProcessable(ps, cfg) && i < |ps|
    requires Collected(Lines(ps, cfg), Maps(ps, cfg), i, lines, maps, lenId, ranges)
    requires OverridesOf(nonEnglish, GateFlags(ps, cfg), Paragraphs(ps), i)
    ensures Collected(Lines(ps, cfg), Maps(ps, cfg), i + 1, lines', maps', lenId', ranges')
    ensures OverridesOf(nonEnglish', GateFlags(ps, cfg), Paragraphs(ps), i + 1)
  {
    var p := ps[i];
    var src := Resolve(p.srcLang, cfg);
    OverridesStep(nonEnglish, GateFlags(ps, cfg), Paragraphs(ps), i);
    nonEnglish' := nonEnglish;
    if src == ENGLISH && FlaggedAsWritten(p.paragraph, cfg.tools.scanEmailsUrls(p.paragraph)) {
      nonEnglish' := nonEnglish + [(i, p.paragraph)];
    }
    CollectedStep(Lines(ps, cfg), Maps(ps, cfg), i, lines, maps, lenId, ranges);
    var range;
    lines', maps', lenId', range := AppendParagraph(p, cfg, lines, maps, lenId);
    ranges' := ranges + [range];
  }

  /** The first loop: gate, split, preprocess, and append to the global lists. */
  method CollectBatch(ps: seq<Payload>, cfg: Config)
    returns (lines: seq<string>, maps: seq<EntityMap>, lenId: seq<nat>,
             ranges: seq<(nat, nat)>, nonEnglish: seq<(nat, string)>)
    requires AllProcessable(ps, cfg)
    ensures lines == AllLines(ps, cfg) && maps == AllMaps(ps, cfg)
    ensures lenId == EntityCounts(maps)
    ensures |ranges| == |ps|
    ensures forall k :: 0 <= k < |ps| ==> ranges[k] == (Start(Lines(ps, cfg), k), Start(Lines(ps, cfg), k + 1))
    ensures OverridesOf(nonEnglish, GateFlags(ps, cfg), Paragraphs(ps), |ps|)
  {
    lines, maps, lenId, ranges, nonEnglish := [], [], [], [], [];
    CollectedEnds(Lines(ps, cfg), Maps(ps, cfg), lines, maps, lenId, ranges);
    for i := 0 to |ps|
      invariant Collected(Lines(ps, cfg), Maps(ps, cfg), i, lines, maps, lenId, ranges)
      invariant OverridesOf(nonEnglish, GateFlags(ps, cfg), Paragraphs(ps), i)
    {
      lines, maps, lenId, ranges, nonEnglish := CollectParagraph(ps, cfg, i, lines, maps, lenId, ranges, nonEnglish);
    }
    CollectedEnds(Lines(ps, cfg), Maps(ps, cfg), lines, maps, lenId, ranges);
  }

  /** The last loop: `translated_paragraphs[index] = new_sentence` for every entry of
      the override dictionary, whose keys are distinct. */
  method ApplyOverrides(translated: seq<string>, entries: seq<(nat, string)>) returns (out: seq<string>)
    requires forall e :: 0 <= e < |entries| ==> entries[e].0 < |translated|
    requires forall e, f :: 0 <= e < f < |entries| ==> entries[e].0 != entries[f].0
    ensures |out| == |translated|
    ensures forall e :: 0 <= e < |entries| ==> out[entries[e].0] == entries[e].1
    ensures forall k :: 0 <= k < |out| && (forall e :: 0 <= e < |entries| ==> entries[e].0 != k) ==>
      out[k] == translated[k]
  {
    out := translated;
    for j := 0 to |entries|
      invariant |out| == |translated|
      invariant forall e :: 0 <= e < j ==> out[entries[e].0] == entries[e].1
      invariant forall k :: 0 <= k < |out| && (forall e :: 0 <= e < j ==> entries[e].0 != k) ==>
        out[k] == translated[k]
    {
      out := out[entries[j].0 := entries[j].1];
    }
  }

  /** The backend's output for the whole batch. */
  function Translations(ps: seq<Payload>, cfg: Config): seq<string>
    requires AllProcessable(ps, cfg)
  {
    cfg.tools.translateLines(AllLines(ps, cfg), EntityCounts(AllMaps(ps, cfg)))
  }

  /** What the source returns for paragraph k, given the backend's output for the
      global list: the original text for a gated paragraph, its translation otherwise. */
  function Output(ps: seq<Payload>, k: nat, translations: seq<string>, cfg: Config): string
    requires AllProcessable(ps, cfg) && k < |ps|
  {
    if Gated(ps[k], cfg) then ps[k].paragraph
    else Reassembled(Maps(ps, cfg), Tgts(ps, cfg), k, translations, cfg.tools)
  }

  /** What a paragraph's output is: a gated paragraph keeps its text verbatim; any
      other one, once the backend has answered every line, is its own range of the
      answers, postprocessed line by line with its own placeholder maps and target
      code, and joined with spaces. */
  lemma OutputSpec(ps: seq<Payload>, k: nat, translations: seq<string>, cfg: Config)
    requires AllProcessable(ps, cfg) && k < |ps|
    requires |AllLines(ps, cfg)| <= |translations|
    ensures Gated(ps[k], cfg) ==> Output(ps, k, translations, cfg) == ps[k].paragraph
    ensures !Gated(ps[k], cfg) ==>
      var lo := Start(Lines(ps, cfg), k);
      var hi := Start(Lines(ps, cfg), k + 1);
      && lo <= hi <= |translations|
      && hi - lo == |ParaMaps(ps[k], cfg)|
      && Output(ps, k, translations, cfg)
         == Join(" ", PostLines(translations[lo..hi], ParaMaps(ps[k], cfg), Tgt(ps[k], cfg), cfg.tools))
  {
    ParagraphRange(ps, cfg, k);
    SameStarts(ps, cfg);
    assert Tgts(ps, cfg)[k] == Tgt(ps[k], cfg);
    assert Maps(ps, cfg)[k] == ParaMaps(ps[k], cfg);
  }

  /** Only English-declared paragraphs are gated, exactly when their ratio is below
      one half. One whose total is 0 (ratio 0) or negative (newlines subtracted twice)
      is always gated; a paragraph declared in any other language never is. */
  lemma GateRule(p: Payload, cfg: Config)
    requires Processable(p, cfg)
    ensures Src(p, cfg) != ENGLISH ==> !Gated(p, cfg)
    ensures Src(p, cfg) == ENGLISH && TotalAsWritten(CountsOf(p.paragraph, cfg.tools.scanEmailsUrls(p.paragraph))) <= 0
      ==> Gated(p, cfg)
    ensures Gated(p, cfg) <==>
      (Src(p, cfg) == ENGLISH && Ratio(CountsOf(p.paragraph, cfg.tools.scanEmailsUrls(p.paragraph)).roman,
                                      TotalAsWritten(CountsOf(p.paragraph, cfg.tools.scanEmailsUrls(p.paragraph)))) < 0.5)
  {
    var c := CountsOf(p.paragraph, cfg.tools.scanEmailsUrls(p.paragraph));
    BelowHalfExact(c.roman, TotalAsWritten(c));
  }

  /** The newline double count reaches the output: an English-declared "Hi\n\n" with
      no e-mail or URL is gated, so the batch returns it untranslated. */
  lemma NewlineParagraphKept(ps: seq<Payload>, k: nat, translations: seq<string>, cfg: Config)
    requires AllProcessable(ps, cfg) && k < |ps|
    requires Src(ps[k], cfg) == ENGLISH && ps[k].paragraph == "Hi\n\n"
    requires cfg.tools.scanEmailsUrls("Hi\n\n") == EmailUrlScan(0, 0, "Hi\n\n")
    ensures Gated(ps[k], cfg) && Output(ps, k, translations, cfg) == "Hi\n\n"
  {
    NewlineDoubleCount();
  }

  /** `paragraphs_batch_translate__multilingual(batch_payloads)`: one output per
      payload, the gated ones keeping their original text and every other one its
      translation; a backend that returns fewer lines than it was given is a failure. */
  method TranslateBatch(ps: seq<Payload>, cfg: Config) returns (r: Result<seq<string>>)
    requires AllProcessable(ps, cfg)
    ensures |Translations(ps, cfg)| < |AllLines(ps, cfg)| ==> r.Failure?
    ensures |AllLines(ps, cfg)| <= |Translations(ps, cfg)| ==>
      && r.Success? && |r.value| == |ps|
      && |AllMaps(ps, cfg)| <= |Translations(ps, cfg)|
      && forall k :: 0 <= k < |ps| ==> r.value[k] == Output(ps, k, Translations(ps, cfg), cfg)
  {
    var lines, maps, lenId, ranges, nonEnglish := CollectBatch(ps, cfg);
    var translations := cfg.tools.translateLines(lines, lenId);
    SameStarts(ps, cfg);
    var translated := Reassemble(Maps(ps, cfg), Tgts(ps, cfg), ranges, maps, translations, cfg.tools);
    if translated.Failure? {
      return translated;
    }
    var out := ApplyOverrides(translated.value, nonEnglish);
    forall k | 0 <= k < |ps| ensures out[k] == Output(ps, k, translations, cfg) {
      if Gated(ps[k], cfg) {
        assert GateFlags(ps, cfg)[k];
        var e :| 0 <= e < |nonEnglish| && nonEnglish[e].0 == k;
      }
    }
    r := Success(out);
  }
}
