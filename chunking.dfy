/** `truncate_long_sentences`: sentences of more than 256 whitespace-separated
    tokens are cut into windows of 256 tokens, and the sentence's placeholder
    map is copied onto every window. The loop runs while `i <= len(words)`, so a
    sentence whose token count is a multiple of 256 also yields a trailing empty
    window; the model keeps that. */
module Chunking {
  import opened PyStr
  import opened Toolkit

  const MAX_SEQ_LEN: nat := 256

  function Min(a: int, b: int): int {
    if a < b then a else b
  }

  /** `[" ".join(words[i:i+256]) for i = start, start+256, ... while i <= len(words)]`. */
  function Windows(words: seq<string>, start: nat): seq<string>
    decreases |words| + 1 - start
  {
    if start > |words| then []
    else [Join(" ", words[start..Min(start + MAX_SEQ_LEN, |words|)])] + Windows(words, start + MAX_SEQ_LEN)
  }

  /** What one sentence becomes. */
  function SentenceChunks(sent: string): seq<string> {
    var words := Split(sent);
    if |words| > MAX_SEQ_LEN then Windows(words, 0) else [sent]
  }

  function Repeat<T>(x: T, n: nat): (r: seq<T>)
    ensures |r| == n && forall k :: 0 <= k < n ==> r[k] == x
  {
    seq(n, _ => x)
  }

  /** A non-empty sequence is its prefix followed by its last element. */
  lemma Snoc<T>(s: seq<T>)
    requires s != []
    ensures s[..|s| - 1] + [s[|s| - 1]] == s
  {
  }

  /** The prefix of length n + 1 is the prefix of length n followed by element n. */
  lemma SnocPrefix<T>(s: seq<T>, n: nat)
    requires n < |s|
    ensures s[..n] + [s[n]] == s[..n + 1]
  {
  }

  lemma RepeatOne<T>(x: T)
    ensures Repeat(x, 1) == [x]
  {
    assert Repeat(x, 1)[0] == x;
  }

  /** The sentences `truncate_long_sentences` returns, built sentence by sentence. */
  function TruncatedSents(sents: seq<string>): seq<string> {
    FlatMap(sents, SentenceChunks)
  }

  /** `f` applied to each element in turn, the results concatenated. */
  function FlatMap<A, B>(xs: seq<A>, f: A -> seq<B>): seq<B> {
    if xs == [] then [] else FlatMap(xs[..|xs| - 1], f) + f(xs[|xs| - 1])
  }

  /** Mapping more elements only appends. */
  lemma {:induction false} FlatMapPrefix<A, B>(xs: seq<A>, f: A -> seq<B>, n: nat)
    requires n <= |xs|
    ensures |FlatMap(xs[..n], f)| <= |FlatMap(xs, f)|
    ensures FlatMap(xs, f)[..|FlatMap(xs[..n], f)|] == FlatMap(xs[..n], f)
    decreases |xs| - n
  {
    if n == |xs| {
      assert xs[..n] == xs;
    } else {
      var m := |xs| - 1;
      assert xs[..m][..n] == xs[..n];
      FlatMapPrefix(xs[..m], f, n);
    }
  }

  /** The image of element j sits right after the images of elements 0..j-1. */
  lemma FlatMapContiguous<A, B>(xs: seq<A>, f: A -> seq<B>, j: nat)
    requires j < |xs|
    ensures var lo := |FlatMap(xs[..j], f)|;
            && lo + |f(xs[j])| <= |FlatMap(xs, f)|
            && FlatMap(xs, f)[lo..lo + |f(xs[j])|] == f(xs[j])
  {
    var prefix := xs[..j + 1];
    assert prefix[..|prefix| - 1] == xs[..j] && prefix[|prefix| - 1] == xs[j];
    var before := FlatMap(xs[..j], f);
    assert FlatMap(prefix, f) == before + f(xs[j]);
    FlatMapPrefix(xs, f, j + 1);
    PrefixSlice(FlatMap(xs, f), before, f(xs[j]));
  }

  /** The placeholder maps it returns: sentence j's map once per chunk of sentence j. */
  function TruncatedMaps(sents: seq<string>, maps: seq<EntityMap>): seq<EntityMap>
    requires |sents| <= |maps|
  {
    if sents == [] then []
    else TruncatedMaps(sents[..|sents| - 1], maps)
         + Repeat(maps[|sents| - 1], |SentenceChunks(sents[|sents| - 1])|)
  }

  /** The words of a list of chunks, chunk after chunk. */
  function WordsOf(chunks: seq<string>): seq<string> {
    if chunks == [] then [] else Split(chunks[0]) + WordsOf(chunks[1..])
  }

  /** The inner loop of `truncate_long_sentences`: windows of 256 words from `i = 0`
      while `i <= len(words)`. */
  method CutWindows(words: seq<string>) returns (chunks: seq<string>)
    ensures chunks == Windows(words, 0)
  {
    chunks := [];
    var i: nat := 0;
    while i <= |words|
      invariant chunks + Windows(words, i) == Windows(words, 0)
      decreases |words| + 1 - i
    {
      chunks := chunks + [Join(" ", words[i..Min(i + MAX_SEQ_LEN, |words|)])];
      i := i + MAX_SEQ_LEN;
    }
  }

  method TruncateLongSentences(sents: seq<string>, maps: seq<EntityMap>)
    returns (newSents: seq<string>, placeholders: seq<EntityMap>)
    requires |sents| <= |maps|
    ensures newSents == TruncatedSents(sents)
    ensures placeholders == TruncatedMaps(sents, maps)
  {
    newSents, placeholders := [], [];
    var j := 0;
    while j < |sents|
      invariant 0 <= j <= |sents|
      invariant newSents == TruncatedSents(sents[..j])
      invariant placeholders == TruncatedMaps(sents[..j], maps)
    {
      var sent := sents[j];
      var words := Split(sent);
      var numWords := |words|;
      ghost var prefix := sents[..j + 1];
      assert prefix[..j] == sents[..j] && prefix[j] == sent;
      TruncatedSnoc(prefix, maps);
      if numWords > MAX_SEQ_LEN {
        var chunks := CutWindows(words);
        assert chunks == SentenceChunks(sent);
        placeholders := placeholders + Repeat(maps[j], |chunks|);
        newSents := newSents + chunks;
      } else {
        assert [sent] == SentenceChunks(sent);
        RepeatOne(maps[j]);
        placeholders := placeholders + [maps[j]];
        newSents := newSents + [sent];
      }
      j := j + 1;
    }
    assert sents[..|sents|] == sents;
  }

  // ---------------------------------------------------------------------------
  // Properties of one sentence

  /** The number of windows from `start`. */
  lemma {:induction false} WindowsCount(words: seq<string>, start: nat)
    requires start <= |words|
    ensures |Windows(words, start)| == (|words| - start) / MAX_SEQ_LEN + 1
    decreases |words| - start
  {
    if start + MAX_SEQ_LEN <= |words| {
      WindowsCount(words, start + MAX_SEQ_LEN);
    }
  }

  /** Window k covers words [start + 256k, start + 256k + 256), clipped at the end. */
  lemma {:induction false} WindowAt(words: seq<string>, start: nat, k: nat)
    requires k < |Windows(words, start)|
    ensures start + MAX_SEQ_LEN * k <= |words|
    ensures Windows(words, start)[k]
         == Join(" ", words[start + MAX_SEQ_LEN * k..Min(start + MAX_SEQ_LEN * k + MAX_SEQ_LEN, |words|)])
    decreases |words| + 1 - start
  {
    if k > 0 {
      WindowAt(words, start + MAX_SEQ_LEN, k - 1);
    }
  }

  /** Reading the words of the windows back, in order, gives `words[start..]`. */
  lemma {:induction false} WindowsWords(words: seq<string>, start: nat)
    requires AllWords(words)
    requires start <= |words|
    ensures WordsOf(Windows(words, start)) == words[start..]
    decreases |words| - start
  {
    var end := Min(start + MAX_SEQ_LEN, |words|);
    var w := Windows(words, start);
    assert AllWords(words[start..end]);
    SplitJoin(words[start..end]);
    assert w[1..] == Windows(words, start + MAX_SEQ_LEN);
    if start + MAX_SEQ_LEN <= |words| {
      WindowsWords(words, start + MAX_SEQ_LEN);
      assert words[start..] == words[start..end] + words[start + MAX_SEQ_LEN..];
    } else {
      assert w[1..] == [];
    }
  }

  /** When the word count left is a multiple of 256, the last window is empty. */
  lemma {:induction false} WindowsLastEmpty(words: seq<string>, start: nat)
    requires start <= |words|
    requires (|words| - start) % MAX_SEQ_LEN == 0
    ensures |Windows(words, start)| > 0
    ensures Windows(words, start)[|Windows(words, start)| - 1] == ""
    decreases |words| - start
  {
    if start + MAX_SEQ_LEN <= |words| {
      WindowsLastEmpty(words, start + MAX_SEQ_LEN);
    } else {
      assert start == |words|;
      assert words[start..start] == [];
    }
  }

  /** Every window holds at most 256 words. */
  lemma WindowsShort(words: seq<string>)
    requires AllWords(words)
    ensures forall k :: 0 <= k < |Windows(words, 0)| ==> |Split(Windows(words, 0)[k])| <= MAX_SEQ_LEN
  {
    var chunks := Windows(words, 0);
    forall k | 0 <= k < |chunks| ensures |Split(chunks[k])| <= MAX_SEQ_LEN {
      WindowAt(words, 0, k);
      var lo := MAX_SEQ_LEN * k;
      var piece := words[lo..Min(lo + MAX_SEQ_LEN, |words|)];
      assert AllWords(piece);
      SplitJoin(piece);
    }
  }

  /** A sentence of at most 256 words. */
  predicate Short(sent: string) {
    |Split(sent)| <= MAX_SEQ_LEN
  }

  /** A sentence of at most 256 words passes through unchanged. */
  lemma ShortSentenceChunks(sent: string)
    requires Short(sent)
    ensures SentenceChunks(sent) == [sent]
  {
  }

  /** A sentence of L > 256 words becomes L/256 + 1 chunks of at most 256 words each,
      whose words read in order give back the sentence's words; when L is a multiple
      of 256 the last chunk is the empty string. */
  lemma LongSentenceChunks(sent: string)
    requires |Split(sent)| > MAX_SEQ_LEN
    ensures |SentenceChunks(sent)| == |Split(sent)| / MAX_SEQ_LEN + 1
    ensures forall k :: 0 <= k < |SentenceChunks(sent)| ==> |Split(SentenceChunks(sent)[k])| <= MAX_SEQ_LEN
    ensures WordsOf(SentenceChunks(sent)) == Split(sent)
    ensures |Split(sent)| % MAX_SEQ_LEN == 0 ==> SentenceChunks(sent)[|SentenceChunks(sent)| - 1] == ""
  {
    var words := Split(sent);
    assert SentenceChunks(sent) == Windows(words, 0);
    WindowsCount(words, 0);
    WindowsShort(words);
    WindowsWords(words, 0);
    assert words[0..] == words;
    if |words| % MAX_SEQ_LEN == 0 {
      WindowsLastEmpty(words, 0);
    }
  }

  // ---------------------------------------------------------------------------
  // Properties of the whole list

  /** The two returned lists have the same length. */
  lemma {:induction false} TruncatedAligned(sents: seq<string>, maps: seq<EntityMap>)
    requires |sents| <= |maps|
    ensures |TruncatedSents(sents)| == |TruncatedMaps(sents, maps)|
  {
    if sents != [] {
      TruncatedAligned(sents[..|sents| - 1], maps);
    }
  }

  /** The last sentence's chunks and maps come after those of the others. */
  lemma TruncatedSnoc(sents: seq<string>, maps: seq<EntityMap>)
    requires sents != [] && |sents| <= |maps|
    ensures TruncatedSents(sents) == TruncatedSents(sents[..|sents| - 1]) + SentenceChunks(sents[|sents| - 1])
    ensures TruncatedMaps(sents, maps) == TruncatedMaps(sents[..|sents| - 1], maps)
      + Repeat(maps[|sents| - 1], |SentenceChunks(sents[|sents| - 1])|)
  {
  }

  /** When no sentence is over the limit, sentences and maps come back unchanged. */
  lemma {:induction false} TruncatedAllShort(sents: seq<string>, maps: seq<EntityMap>)
    requires |sents| <= |maps|
    requires forall j {:trigger Short(sents[j])} :: 0 <= j < |sents| ==> Short(sents[j])
    ensures TruncatedSents(sents) == sents
    ensures TruncatedMaps(sents, maps) == maps[..|sents|]
  {
    if sents != [] {
      var n := |sents| - 1;
      assert forall j :: 0 <= j < n ==> sents[..n][j] == sents[j];
      TruncatedAllShort(sents[..n], maps);
      assert Short(sents[n]);
      ShortSentenceChunks(sents[n]);
      TruncatedSnoc(sents, maps);
      Snoc(sents);
      RepeatOne(maps[n]);
      SnocPrefix(maps, n);
    }
  }

  /** Processing more sentences only appends maps. */
  lemma {:induction false} MapsPrefix(sents: seq<string>, maps: seq<EntityMap>, n: nat)
    requires |sents| <= |maps|
    requires n <= |sents|
    ensures |TruncatedMaps(sents[..n], maps)| <= |TruncatedMaps(sents, maps)|
    ensures TruncatedMaps(sents, maps)[..|TruncatedMaps(sents[..n], maps)|] == TruncatedMaps(sents[..n], maps)
    decreases |sents| - n
  {
    if n == |sents| {
      assert sents[..n] == sents;
    } else {
      var m := |sents| - 1;
      assert sents[..m][..n] == sents[..n];
      MapsPrefix(sents[..m], maps, n);
    }
  }

  /** A slice of a sequence that starts with `a + b` is `b` where `b` lies. */
  lemma PrefixSlice<T>(s: seq<T>, a: seq<T>, b: seq<T>)
    requires |a + b| <= |s| && s[..|a + b|] == a + b
    ensures s[|a|..|a| + |b|] == b
  {
    assert s[|a|..|a| + |b|] == (a + b)[|a|..];
  }

  /** A sequence that starts with `a` followed by n copies of x holds x at those n places. */
  lemma PrefixRepeat<T>(s: seq<T>, a: seq<T>, x: T, n: nat)
    requires |a + Repeat(x, n)| <= |s| && s[..|a + Repeat(x, n)|] == a + Repeat(x, n)
    ensures forall t :: |a| <= t < |a| + n ==> s[t] == x
  {
    forall t | |a| <= t < |a| + n ensures s[t] == x {
      assert s[t] == s[..|a + Repeat(x, n)|][t];
    }
  }

  /** The chunks of sentence j sit together, right after those of sentences 0..j-1. */
  lemma ChunksContiguous(sents: seq<string>, j: nat)
    requires j < |sents|
    ensures var lo := |TruncatedSents(sents[..j])|;
            var chunks := SentenceChunks(sents[j]);
            && lo + |chunks| <= |TruncatedSents(sents)|
            && TruncatedSents(sents)[lo..lo + |chunks|] == chunks
  {
    FlatMapContiguous(sents, SentenceChunks, j);
  }

  /** Each of those chunks carries sentence j's placeholder map. */
  lemma ChunkMaps(sents: seq<string>, maps: seq<EntityMap>, j: nat)
    requires |sents| <= |maps|
    requires j < |sents|
    ensures var lo := |TruncatedSents(sents[..j])|;
            var chunks := SentenceChunks(sents[j]);
            && lo + |chunks| <= |TruncatedMaps(sents, maps)|
            && forall t :: lo <= t < lo + |chunks| ==> TruncatedMaps(sents, maps)[t] == maps[j]
  {
    var prefix := sents[..j + 1];
    assert prefix[..|prefix| - 1] == sents[..j] && prefix[|prefix| - 1] == sents[j];
    var n := |SentenceChunks(sents[j])|;
    TruncatedAligned(sents[..j], maps);
    var before := TruncatedMaps(sents[..j], maps);
    assert TruncatedMaps(prefix, maps) == before + Repeat(maps[j], n);
    MapsPrefix(sents, maps, j + 1);
    PrefixRepeat(TruncatedMaps(sents, maps), before, maps[j], n);
  }
}
