/** Slug generation: lowercase alphanumeric words joined by single hyphens. */
module Slug {

  predicate IsAlnum(c: char) {
    'a' <= c <= 'z' || '0' <= c <= '9'
  }

  predicate IsSlugChar(c: char) {
    IsAlnum(c) || c == '-'
  }

  /** `replace(/[^a-z0-9]+/g, '-')`: every run of other characters becomes one hyphen. */
  function Hyphenate(s: string): (r: string)
    ensures forall c | c in r :: IsSlugChar(c)
    decreases |s|, 1
  {
    if s == "" then ""
    else if IsAlnum(s[0]) then [s[0]] + Hyphenate(s[1..])
    else "-" + HyphenateRun(s[1..])
  }

  /** Inside a run of other characters: nothing more is written until it ends. */
  function HyphenateRun(s: string): (r: string)
    ensures forall c | c in r :: IsSlugChar(c)
    ensures r != "" ==> IsAlnum(r[0])
    decreases |s|, 0
  {
    if s == "" then ""
    else if IsAlnum(s[0]) then [s[0]] + Hyphenate(s[1..])
    else HyphenateRun(s[1..])
  }

  function TrimStart(s: string): string {
    if s != "" && s[0] == '-' then TrimStart(s[1..]) else s
  }

  function TrimEnd(s: string): (r: string)
    ensures r <= s
    ensures r != "" ==> r[|r| - 1] != '-'
    ensures forall i | |r| <= i < |s| :: s[i] == '-'
  {
    if s != "" && s[|s| - 1] == '-' then TrimEnd(s[..|s| - 1]) else s
  }

  /** `slice(0, end)`; a negative end counts from the back. */
  function Slice(s: string, end: int): (r: string)
    ensures r <= s
    ensures end >= 0 ==> |r| <= end
  {
    var stop := if end < 0 then |s| + end else end;
    if stop < 0 then "" else if stop > |s| then s else s[..stop]
  }

  /**
   * What precedes the pattern steps: NFD normalisation, removal of combining marks and
   * lower-casing. Text that is already a slug goes through unchanged.
   */
  type Folding = string -> string

  ghost predicate KeepsSlugText(fold: Folding) {
    forall s: string | (forall c | c in s :: IsSlugChar(c)) :: fold(s) == s
  }

  function FullSlug(fold: Folding, text: string): string {
    TrimEnd(TrimStart(Hyphenate(fold(text))))
  }

  function Slugify(fold: Folding, text: string, maxLength: int): string {
    TrimEnd(Slice(FullSlug(fold, text), maxLength))
  }

  // ---------------------------------------------------------------- the normal form

  /** Only slug characters, no hyphen at either end, no two hyphens together. */
  predicate WellFormed(s: string) {
    && (forall c | c in s :: IsSlugChar(c))
    && (s != "" ==> s[0] != '-' && s[|s| - 1] != '-')
    && NoDoubleHyphen(s)
  }

  predicate NoDoubleHyphen(s: string) {
    forall i | 0 <= i < |s| - 1 :: !(s[i] == '-' && s[i + 1] == '-')
  }

  /** The maximal alphanumeric runs of a text. */
  function Words(s: string): (ws: seq<string>)
    ensures forall w | w in ws :: w != "" && forall c | c in w :: IsAlnum(c)
  {
    if s == "" then []
    else
      var k := RunLength(s);
      if k == 0 then Words(s[1..]) else [s[..k]] + Words(s[k..])
  }

  function RunLength(s: string): (k: nat)
    ensures k <= |s|
    ensures forall i | 0 <= i < k :: IsAlnum(s[i])
    ensures k < |s| ==> !IsAlnum(s[k])
  {
    if s == "" || !IsAlnum(s[0]) then 0 else 1 + RunLength(s[1..])
  }

  function Join(ws: seq<string>): string {
    if |ws| == 0 then ""
    else if |ws| == 1 then ws[0]
    else ws[0] + "-" + Join(ws[1..])
  }

  /** An alphanumeric run passes the hyphenation unchanged. */
  lemma {:induction false} HyphenateThroughRun(s: string, k: nat)
    requires k <= RunLength(s)
    ensures Hyphenate(s) == s[..k] + Hyphenate(s[k..])
    ensures k > 0 ==> HyphenateRun(s) == s[..k] + Hyphenate(s[k..])
  {
    if k == 0 {
      assert s[0..] == s && s[..0] + Hyphenate(s) == Hyphenate(s);
    } else {
      var rest := s[1..];
      HyphenateThroughRun(rest, k - 1);
      assert s[..k] == [s[0]] + rest[..k - 1] && rest[k - 1..] == s[k..];
      var h := Hyphenate(s[k..]);
      assert [s[0]] + (rest[..k - 1] + h) == s[..k] + h;
    }
  }

  /** Hyphenation by words: what follows a run of other characters. */
  lemma {:induction false} RunByWords(s: string)
    ensures TrimEnd(HyphenateRun(s)) == Join(Words(s))
    decreases |s|, 1
  {
    if s != "" {
      if IsAlnum(s[0]) {
        HyphenateThroughRun(s, RunLength(s));
        WordThenRest(s);
      } else {
        RunByWords(s[1..]);
      }
    }
  }

  /** A text that starts with a word: the word, then a hyphen if another word follows. */
  lemma {:induction false} WordThenRest(s: string)
    requires s != "" && IsAlnum(s[0])
    ensures var k := RunLength(s); TrimEnd(s[..k] + Hyphenate(s[k..])) == Join(Words(s))
    decreases |s|, 0
  {
    var k := RunLength(s);
    var word, rest := s[..k], s[k..];
    assert word[k - 1] != '-';
    if rest == "" {
      assert word + "" == word;
      assert Words(s) == [word] + Words(rest);
    } else {
      RunByWords(rest[1..]);
      TrimWord(word, HyphenateRun(rest[1..]));
      WordsStep(s);
      JoinEmpty(Words(rest[1..]));
    }
  }

  /** The words of a text that starts with a word and goes on. */
  lemma WordsStep(s: string)
    requires s != "" && IsAlnum(s[0]) && RunLength(s) < |s|
    ensures var k := RunLength(s); Words(s) == [s[..k]] + Words(s[k..][1..])
  {
    assert Words(s[RunLength(s)..]) == Words(s[RunLength(s)..][1..]);
  }

  lemma TrimWord(word: string, tail: string)
    requires word != "" && word[|word| - 1] != '-'
    ensures TrimEnd(word + ("-" + tail))
         == if TrimEnd(tail) == "" then word else word + "-" + TrimEnd(tail)
  {
    TrimEndConcat(word, "-" + tail);
    TrimEndConcat("-", tail);
    assert TrimEnd("-") == TrimEnd("");
    assert word + ("-" + TrimEnd(tail)) == word + "-" + TrimEnd(tail);
  }

  lemma JoinEmpty(ws: seq<string>)
    requires forall w | w in ws :: w != ""
    ensures Join(ws) == "" <==> ws == []
  {
    if |ws| > 0 {
      assert ws[0] in ws;
    }
  }

  /** Trimming the end of a concatenation. */
  lemma {:induction false} TrimEndConcat(a: string, b: string)
    ensures TrimEnd(a + b) == if TrimEnd(b) == "" then TrimEnd(a) else a + TrimEnd(b)
  {
    if b == "" {
      assert a + b == a;
    } else if b[|b| - 1] == '-' {
      assert (a + b)[..|a + b| - 1] == a + b[..|b| - 1];
      TrimEndConcat(a, b[..|b| - 1]);
    }
  }

  /** The untruncated slug is the words of the folded text joined by single hyphens. */
  lemma FullSlugByWords(fold: Folding, text: string)
    ensures FullSlug(fold, text) == Join(Words(fold(text)))
  {
    var s := fold(text);
    TrimStartOfHyphenated(s);
    RunByWords(s);
  }

  /** Trimming the front drops the hyphen of a leading run, the only one there can be. */
  lemma TrimStartOfHyphenated(s: string)
    ensures TrimStart(Hyphenate(s)) == HyphenateRun(s)
  {
    if s != "" && !IsAlnum(s[0]) {
      var r := HyphenateRun(s[1..]);
      assert Hyphenate(s) == "-" + r;
      assert ("-" + r)[1..] == r;
    }
  }

  // ---------------------------------------------------------------- what the words are

  const LETTERS := "abcdefghijklmnopqrstuvwxyz"
  const DIGITS := "0123456789"

  predicate InAlphabet(c: char) {
    c in LETTERS || c in DIGITS
  }

  predicate AllInAlphabet(s: string) {
    forall c | c in s :: InAlphabet(c)
  }

  predicate NoneInAlphabet(s: string) {
    forall c | c in s :: !InAlphabet(c)
  }

  lemma LettersExact(c: char)
    ensures c in LETTERS <==> 'a' <= c <= 'z'
  {
    if 'a' <= c <= 'z' {
      assert LETTERS[c as int - 'a' as int] == c;
    }
  }

  lemma DigitsExact(c: char)
    ensures c in DIGITS <==> '0' <= c <= '9'
  {
    if '0' <= c <= '9' {
      assert DIGITS[c as int - '0' as int] == c;
    }
  }

  /** The characters of words are exactly these letters and digits. */
  lemma AlphabetExact(c: char)
    ensures IsAlnum(c) <==> InAlphabet(c)
  {
    LettersExact(c);
    DigitsExact(c);
  }

  /** Gaps and words in turn, a gap first and last. */
  function Weave(gaps: seq<string>, ws: seq<string>): string
    requires |gaps| == |ws| + 1
  {
    if ws == [] then gaps[0] else gaps[0] + ws[0] + Weave(gaps[1..], ws[1..])
  }

  predicate SplitsInto(s: string, gaps: seq<string>, ws: seq<string>) {
    && |gaps| == |ws| + 1 && s == Weave(gaps, ws)
    && (forall i | 0 <= i < |ws| :: ws[i] != "" && AllInAlphabet(ws[i]))
    && (forall i | 0 <= i < |gaps| :: NoneInAlphabet(gaps[i]))
    && forall i | 0 < i < |ws| :: gaps[i] != ""
  }

  /** The words are all there is of the alphabet, cut wherever anything else stands between. */
  lemma {:induction false} WordsExact(s: string) returns (gaps: seq<string>)
    ensures SplitsInto(s, gaps, Words(s))
    ensures s != "" && !IsAlnum(s[0]) ==> gaps[0] != ""
    decreases |s|
  {
    if s == "" {
      gaps := [""];
    } else {
      var k := RunLength(s);
      if k == 0 {
        var rest := WordsExact(s[1..]);
        AlphabetExact(s[0]);
        gaps := WiderGap(s, rest, Words(s[1..]));
      } else {
        var rest := WordsExact(s[k..]);
        forall c | c in s[..k] ensures InAlphabet(c) {
          AlphabetExact(c);
        }
        gaps := AnotherWord(s, k, rest, Words(s[k..]));
      }
    }
  }

  lemma WiderGap(s: string, rest: seq<string>, ws: seq<string>) returns (gaps: seq<string>)
    requires s != "" && !InAlphabet(s[0]) && SplitsInto(s[1..], rest, ws)
    ensures SplitsInto(s, gaps, ws) && gaps[0] != ""
  {
    gaps := rest[0 := [s[0]] + rest[0]];
    assert s == [s[0]] + s[1..] && gaps[1..] == rest[1..];
    if ws != [] {
      var tail := Weave(rest[1..], ws[1..]);
      assert [s[0]] + (rest[0] + ws[0] + tail) == gaps[0] + ws[0] + tail;
    }
  }

  lemma AnotherWord(s: string, k: nat, rest: seq<string>, ws: seq<string>)
    returns (gaps: seq<string>)
    requires 0 < k <= |s| && AllInAlphabet(s[..k]) && SplitsInto(s[k..], rest, ws)
    requires ws != [] ==> rest[0] != ""
    ensures SplitsInto(s, gaps, [s[..k]] + ws)
  {
    gaps := [""] + rest;
    var all := [s[..k]] + ws;
    assert gaps[1..] == rest && all[1..] == ws;
    assert s == s[..k] + s[k..];
    assert "" + s[..k] == s[..k];
    forall i | 0 <= i < |gaps| ensures NoneInAlphabet(gaps[i]) {
      assert i > 0 ==> gaps[i] == rest[i - 1];
    }
  }

  /** Joined words are well formed. */
  lemma {:induction false} JoinWellFormed(ws: seq<string>)
    requires forall w | w in ws :: w != "" && forall c | c in w :: IsAlnum(c)
    ensures WellFormed(Join(ws))
  {
    if |ws| > 0 {
      var w, rest := ws[0], Join(ws[1..]);
      assert w in ws;
      assert w[0] in w && w[|w| - 1] in w;
      assert forall v | v in ws[1..] :: v in ws;
      JoinWellFormed(ws[1..]);
      JoinEmpty(ws[1..]);
      if |ws| == 1 {
        assert forall i | 0 <= i < |w| :: w[i] in w;
      } else {
        HyphenBetween(w, rest);
      }
    }
  }

  lemma HyphenBetween(w: string, rest: string)
    requires w != "" && (forall c | c in w :: IsAlnum(c))
    requires rest != "" && WellFormed(rest)
    ensures WellFormed(w + "-" + rest)
  {
    var s := w + "-" + rest;
    assert forall i | 0 <= i < |w| :: s[i] == w[i] && w[i] in w;
    assert forall i | 0 <= i < |rest| :: s[|w| + 1 + i] == rest[i];
    forall i | 0 <= i < |s| - 1 ensures !(s[i] == '-' && s[i + 1] == '-') {
      if i > |w| {
        assert s[i] == rest[i - |w| - 1] && s[i + 1] == rest[i - |w|];
      }
    }
  }

  /** Every slug is in normal form, whatever the text and the limit. */
  lemma SlugWellFormed(fold: Folding, text: string, maxLength: int)
    ensures WellFormed(Slugify(fold, text, maxLength))
  {
    var full := FullSlug(fold, text);
    FullSlugByWords(fold, text);
    JoinWellFormed(Words(fold(text)));
    var slug := Slugify(fold, text, maxLength);
    assert slug <= full;
    assert forall i | 0 <= i < |slug| :: slug[i] == full[i];
  }

  /**
   * The slug under a limit is the longest prefix of the untruncated slug that fits the
   * limit and is itself in normal form.
   */
  lemma SlugIsLongestFit(fold: Folding, text: string, maxLength: nat)
    ensures var full, slug := FullSlug(fold, text), Slugify(fold, text, maxLength);
            && slug <= full && |slug| <= maxLength && WellFormed(slug)
            && forall k | 0 <= k <= |full| && k <= maxLength && WellFormed(full[..k]) :: k <= |slug|
  {
    var full, slug := FullSlug(fold, text), Slugify(fold, text, maxLength);
    SlugWellFormed(fold, text, maxLength);
    forall k | |slug| < k <= |full| && k <= maxLength ensures !WellFormed(full[..k]) {
      assert full[..k][k - 1] == Slice(full, maxLength)[k - 1];
    }
  }

  /** A smaller limit gives a prefix of the slug under a larger one. */
  lemma SlugPrefix(fold: Folding, text: string, m: nat, n: nat)
    requires m <= n
    ensures Slugify(fold, text, m) <= Slugify(fold, text, n)
  {
    var full, small := FullSlug(fold, text), Slugify(fold, text, m);
    SlugIsLongestFit(fold, text, m);
    SlugIsLongestFit(fold, text, n);
    assert full[..|small|] == small;
  }

  /** A text in normal form is its own untruncated slug. */
  lemma WellFormedIsFixed(fold: Folding, s: string)
    requires KeepsSlugText(fold) && WellFormed(s)
    ensures FullSlug(fold, s) == s
  {
    assert fold(s) == s;
    HyphenateFixed(s);
  }

  lemma {:induction false} HyphenateFixed(s: string)
    requires (forall c | c in s :: IsSlugChar(c)) && NoDoubleHyphen(s)
    ensures Hyphenate(s) == s
    ensures s != "" && s[0] != '-' ==> HyphenateRun(s) == s
  {
    if s != "" {
      assert s[0] in s;
      forall i | 0 <= i < |s[1..]| - 1 ensures !(s[1..][i] == '-' && s[1..][i + 1] == '-') {
        assert s[1..][i] == s[i + 1] && s[1..][i + 1] == s[i + 2];
      }
      HyphenateFixed(s[1..]);
      assert s == [s[0]] + s[1..];
    }
  }

  /** Slugifying a slug again, under the same or a larger limit, changes nothing. */
  lemma SlugifyIdempotent(fold: Folding, text: string, m: nat, n: nat)
    requires KeepsSlugText(fold) && m <= n
    ensures Slugify(fold, Slugify(fold, text, m), n) == Slugify(fold, text, m)
  {
    var slug := Slugify(fold, text, m);
    SlugIsLongestFit(fold, text, m);
    WellFormedIsFixed(fold, slug);
    assert Slice(slug, n) == slug;
  }
}
