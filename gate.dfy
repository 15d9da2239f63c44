/** `char_percent_check` and the gate decision of
    `paragraphs_batch_translate__multilingual`: an English-declared paragraph whose
    share of Roman characters (ASCII letters and digits) is below one half keeps
    its original text instead of the translation. Counting is done on the string;
    the e-mail and URL matches are an input (`EmailUrlScan`). */
module LanguageGate {
  import opened PyStr
  import opened Toolkit

  /** The class `[a-zA-Z0-9]`. */
  predicate IsRoman(c: char) {
    ('a' <= c <= 'z') || ('A' <= c <= 'Z') || ('0' <= c <= '9')
  }

  /** The class `[@_!#$%^&*()<>?/\|}{~:]`; the `\|` in it is an escaped `|`, so a
      backslash is not in the class. */
  predicate IsSpecial(c: char) {
    c in {'@', '_', '!', '#', '$', '%', '^', '&', '*', '(', ')', '<', '>', '?', '/', '|', '}', '{', '~', ':'}
  }

  predicate IsNewline(c: char) {
    c == '\n'
  }

  /** The counts `char_percent_check` takes. */
  datatype Counts = Counts(
    inputLen: nat,    // len(list(input))
    spaces: nat,      // len(re.findall('\s', input))
    newlines: nat,    // len(re.findall('\n', input))
    emailChars: nat,  // total length of the e-mail matches
    urlChars: nat,    // total length of the URL matches
    specials: nat,    // special characters left once e-mails and URLs are removed
    roman: nat        // [a-zA-Z0-9] left once e-mails and URLs are removed
  )

  function CountsOf(paragraph: string, scan: EmailUrlScan): Counts {
    Counts(|paragraph|, Count(paragraph, IsSpace), Count(paragraph, IsNewline),
           scan.emailChars, scan.urlChars,
           Count(scan.residual, IsSpecial), Count(scan.residual, IsRoman))
  }

  /** `total_chars` as the source computes it: whitespace, then newlines again. */
  function TotalAsWritten(c: Counts): int {
    c.inputLen - (c.specials + c.spaces + c.newlines + c.emailChars + c.urlChars)
  }

  /** `total_chars` with each newline subtracted once, as whitespace. */
  function TotalCorrected(c: Counts): int {
    c.inputLen - (c.specials + c.spaces + c.emailChars + c.urlChars)
  }

  /** The value `char_percent_check` returns, as an exact rational: 0 when the
      total is 0, `en_chars / total_chars` otherwise. */
  function Ratio(roman: nat, total: int): real {
    if total == 0 then 0.0 else roman as real / total as real
  }

  /** `ratio < 0.5`, in integers. */
  predicate BelowHalf(roman: nat, total: int) {
    total <= 0 || 2 * roman < total
  }

  lemma DivBelow(a: real, b: real, c: real)
    requires b > 0.0
    ensures a / b < c <==> a < c * b
  {
    var q := a / b;
    assert q * b == a;
  }

  lemma DivNegative(a: real, b: real)
    requires b < 0.0 && a >= 0.0
    ensures a / b <= 0.0
  {
    var q := a / b;
    assert q * b == a;
  }

  /** The integer test is exactly the source's `char_percent_check(p) < 0.5`, including
      the zero total (ratio 0, flagged) and a negative total (ratio at most 0, flagged). */
  lemma BelowHalfExact(roman: nat, total: int)
    ensures BelowHalf(roman, total) <==> Ratio(roman, total) < 0.5
  {
    if total > 0 {
      DivBelow(roman as real, total as real, 0.5);
    } else if total < 0 {
      DivNegative(roman as real, total as real);
    }
  }

  /** The boundary: a ratio of exactly one half is not flagged. */
  lemma HalfIsNotFlagged(roman: nat)
    requires roman > 0
    ensures !BelowHalf(roman, 2 * roman)
    ensures Ratio(roman, 2 * roman) == 0.5
  {
    var total := 2 * roman;
    assert total != 0;
    assert Ratio(roman, total) == roman as real / total as real;
    HalfReal(roman as real, total as real);
  }

  lemma HalfReal(a: real, b: real)
    requires a > 0.0 && b == 2.0 * a
    ensures a / b == 0.5
  {
  }

  /** The decision as the source takes it. */
  predicate FlaggedAsWritten(paragraph: string, scan: EmailUrlScan) {
    var c := CountsOf(paragraph, scan);
    BelowHalf(c.roman, TotalAsWritten(c))
  }

  /** The decision with the newline count taken once. */
  predicate Flagged(paragraph: string, scan: EmailUrlScan) {
    var c := CountsOf(paragraph, scan);
    BelowHalf(c.roman, TotalCorrected(c))
  }

  /** What a consistent scan means: removing the matches took exactly their lengths
      and no whitespace (neither pattern matches whitespace). */
  predicate ScanConsistent(paragraph: string, scan: EmailUrlScan) {
    && |paragraph| == |scan.residual| + scan.emailChars + scan.urlChars
    && Count(paragraph, IsSpace) == Count(scan.residual, IsSpace)
  }

  predicate IsCounted(c: char) {
    !IsSpace(c) && !IsSpecial(c)
  }

  /** The two totals differ exactly by the number of newlines. */
  lemma TotalsDiffer(paragraph: string, scan: EmailUrlScan)
    ensures TotalAsWritten(CountsOf(paragraph, scan)) == TotalCorrected(CountsOf(paragraph, scan)) - Count(paragraph, IsNewline)
  {
  }

  /** The three classes `char_percent_check` removes or counts are pairwise disjoint. */
  lemma ClassesDisjoint(c: char)
    ensures !(IsRoman(c) && IsSpecial(c))
    ensures !(IsRoman(c) && IsSpace(c))
    ensures !(IsSpecial(c) && IsSpace(c))
  {
  }

  /** With the correction, the total is the number of characters of the residual that
      are neither whitespace nor special, and at least the Roman count. */
  lemma CorrectedTotalCounts(paragraph: string, scan: EmailUrlScan)
    requires ScanConsistent(paragraph, scan)
    ensures TotalCorrected(CountsOf(paragraph, scan)) == Count(scan.residual, IsCounted)
    ensures CountsOf(paragraph, scan).roman <= TotalCorrected(CountsOf(paragraph, scan))
  {
    forall c: char ensures !(IsRoman(c) && IsSpecial(c)) && !(IsRoman(c) && IsSpace(c)) && !(IsSpecial(c) && IsSpace(c)) {
      ClassesDisjoint(c);
    }
    CountDisjoint3(scan.residual, IsRoman, IsSpecial, IsSpace, IsCounted);
  }

  /** With the correction, the total is never negative and never smaller than the
      Roman count, so the ratio lies in [0, 1]. A paragraph whose counted characters
      are all Roman, and that has one, is never flagged. */
  lemma CorrectedRatioBounds(paragraph: string, scan: EmailUrlScan)
    requires ScanConsistent(paragraph, scan)
    ensures TotalCorrected(CountsOf(paragraph, scan)) == Count(scan.residual, IsCounted)
    ensures 0 <= CountsOf(paragraph, scan).roman <= TotalCorrected(CountsOf(paragraph, scan))
    ensures 0.0 <= Ratio(CountsOf(paragraph, scan).roman, TotalCorrected(CountsOf(paragraph, scan))) <= 1.0
    ensures Count(scan.residual, IsRoman) == Count(scan.residual, IsCounted) > 0 ==> !Flagged(paragraph, scan)
  {
    CorrectedTotalCounts(paragraph, scan);
    var c := CountsOf(paragraph, scan);
    RatioUnit(c.roman, TotalCorrected(c));
  }

  /** A count over a total at least as large lies in [0, 1]. */
  lemma RatioUnit(roman: nat, total: int)
    requires roman <= total
    ensures 0.0 <= Ratio(roman, total) <= 1.0
  {
    if total > 0 {
      DivBelow(roman as real, total as real, 0.0);
      DivAtMostOne(roman as real, total as real);
    }
  }

  lemma DivAtMostOne(a: real, b: real)
    requires b > 0.0 && a <= b
    ensures a / b <= 1.0
  {
    var q := a / b;
    assert q * b == a;
  }

  /** The newline double count flips the decision: "Hi\n\n" has no e-mail or URL,
      two Roman characters and nothing else counted, yet its total as written is
      0, so it is flagged and returned untranslated. With the correction it is not. */
  lemma NewlineDoubleCount()
    ensures var p := "Hi\n\n";
            var scan := EmailUrlScan(0, 0, p);
            && ScanConsistent(p, scan)
            && CountsOf(p, scan).roman == 2
            && TotalAsWritten(CountsOf(p, scan)) == 0
            && FlaggedAsWritten(p, scan)
            && TotalCorrected(CountsOf(p, scan)) == 2
            && !Flagged(p, scan)
  {
    var p := "Hi\n\n";
    HiCounts();
    var c := CountsOf(p, EmailUrlScan(0, 0, p));
    assert c == Counts(4, 2, 2, 0, 0, 0, 2);
  }

  /** The counts of "Hi\n\n". */
  lemma HiCounts()
    ensures Count("Hi\n\n", IsSpace) == 2
    ensures Count("Hi\n\n", IsNewline) == 2
    ensures Count("Hi\n\n", IsSpecial) == 0
    ensures Count("Hi\n\n", IsRoman) == 2
  {
    HiCount(IsSpace);
    HiCount(IsNewline);
    assert !IsSpecial('H') && !IsSpecial('i') && !IsSpecial('\n');
    HiCount(IsSpecial);
    HiCount(IsRoman);
  }

  lemma HiCount(p: char -> bool)
    ensures Count("Hi\n\n", p) == (if p('H') then 1 else 0) + (if p('i') then 1 else 0) + (if p('\n') then 2 else 0)
  {
    assert "Hi\n\n" == ['H', 'i'] + "\n\n";
    CountNewlines(p);
    CountTwo('H', 'i', "\n\n", p);
  }

  /** Counting over two leading characters. */
  lemma CountTwo(a: char, b: char, s: string, p: char -> bool)
    ensures Count([a, b] + s, p) == (if p(a) then 1 else 0) + (if p(b) then 1 else 0) + Count(s, p)
  {
    assert ([a, b] + s)[1..] == [b] + s;
    assert ([b] + s)[1..] == s;
  }

  /** Counting over "\n\n". */
  lemma CountNewlines(p: char -> bool)
    ensures Count("\n\n", p) == if p('\n') then 2 else 0
  {
    assert "\n\n"[1..] == "\n";
    assert "\n"[1..] == "";
  }
}
