/** Project slugs: making one from a name, and finding the first that is free. */
module Slug {
  import opened Prelude
  import opened Strings
  import opened Text

  /** What one character becomes under `str.lower`; letters outside ASCII may become ASCII ones. */
  type Lowering = char -> string

  /** Lower-case letters, digits and hyphens stay, and nothing becomes an ASCII capital. */
  ghost predicate IsLowering(lower: Lowering) {
    && (forall c :: IsWordChar(c) || c == '-' ==> lower(c) == [c])
    && (forall c, i :: 0 <= i < |lower(c)| ==> !('A' <= lower(c)[i] <= 'Z'))
  }

  predicate IsWordChar(c: char) {
    'a' <= c <= 'z' || '0' <= c <= '9'
  }

  /** The pattern's class, before its complement is taken. */
  predicate IsAlnum(c: char) {
    IsWordChar(c) || 'A' <= c <= 'Z'
  }

  predicate IsDash(c: char) {
    c == '-'
  }

  const LETTERS := "abcdefghijklmnopqrstuvwxyz"
  const CAPITALS := "ABCDEFGHIJKLMNOPQRSTUVWXYZ"
  const DIGITS := "0123456789"

  /** The two classes of characters, spelled out. */
  lemma {:induction false} ClassesExactly(c: char)
    ensures IsWordChar(c) <==> c in LETTERS + DIGITS
    ensures IsAlnum(c) <==> c in LETTERS + CAPITALS + DIGITS
  {
    InOrder(LETTERS, 'a', c);
    InOrder(CAPITALS, 'A', c);
    InOrder(DIGITS, '0', c);
  }

  lemma {:induction false} InOrder(s: string, first: char, c: char)
    requires first as int + |s| < 0xd800
    requires forall i :: 0 <= i < |s| ==> s[i] as int == first as int + i
    ensures c in s <==> first as int <= c as int < first as int + |s|
  {
    if first as int <= c as int < first as int + |s| {
      assert s[c as int - first as int] == c;
    }
  }

  function Lower(s: string, lower: Lowering): string {
    if s == "" then "" else lower(s[0]) + Lower(s[1..], lower)
  }

  /** The length of the leading run of characters that are, or are not, alphanumeric. */
  function RunOf(s: string, alnum: bool): (n: nat)
    ensures n <= |s|
  {
    if s != "" && IsAlnum(s[0]) == alnum then 1 + RunOf(s[1..], alnum) else 0
  }

  /** Every maximal run of other characters becomes one hyphen. */
  function Hyphens(s: string): string
    decreases |s|
  {
    if s == "" then ""
    else if IsAlnum(s[0]) then [s[0]] + Hyphens(s[1..])
    else "-" + Hyphens(s[1 + RunOf(s[1..], false)..])
  }

  function Slugify(value: string, lower: Lowering): string {
    var slug := StripOf(Hyphens(Lower(Strip(value), lower)), IsDash);
    if slug == "" then "project" else slug
  }

  // ---------- What a slug is ----------

  predicate IsWord(w: string) {
    w != "" && forall i :: 0 <= i < |w| ==> IsWordChar(w[i])
  }

  function Hyphenated(words: seq<string>): string {
    if |words| == 0 then ""
    else if |words| == 1 then words[0]
    else words[0] + "-" + Hyphenated(words[1..])
  }

  /** Non-empty lower-case alphanumeric words joined by single hyphens. */
  ghost predicate IsSlug(s: string) {
    exists words: seq<string> :: IsSlugOf(words, s)
  }

  ghost predicate IsSlugOf(words: seq<string>, s: string) {
    |words| > 0 && (forall i :: 0 <= i < |words| ==> IsWord(words[i])) && s == Hyphenated(words)
  }

  /** The maximal alphanumeric runs of a text, in order. */
  function Words(s: string): seq<string>
    decreases |s|
  {
    if s == "" then []
    else if IsAlnum(s[0]) then
      var n := 1 + RunOf(s[1..], true);
      [s[..n]] + Words(s[n..])
    else Words(s[1..])
  }

  // ---------- Slugify finds the words ----------

  lemma {:induction false} RunEnds(s: string, alnum: bool)
    ensures var n := RunOf(s, alnum);
            && (forall i :: 0 <= i < n ==> IsAlnum(s[i]) == alnum)
            && (n < |s| ==> IsAlnum(s[n]) != alnum)
  {
    if s != "" && IsAlnum(s[0]) == alnum {
      RunEnds(s[1..], alnum);
      var n := RunOf(s[1..], alnum);
      assert forall i :: 1 <= i < n + 1 ==> s[i] == s[1..][i - 1];
    }
  }

  lemma {:induction false} WordStays(w: string, rest: string)
    requires forall i :: 0 <= i < |w| ==> IsAlnum(w[i])
    ensures Hyphens(w + rest) == w + Hyphens(rest)
  {
    if w == "" {
      assert w + rest == rest;
    } else {
      assert (w + rest)[1..] == w[1..] + rest;
      WordStays(w[1..], rest);
    }
  }

  lemma {:induction false} GapIsSkipped(gap: string, rest: string)
    requires forall i :: 0 <= i < |gap| ==> !IsAlnum(gap[i])
    ensures Words(gap + rest) == Words(rest)
  {
    if gap == "" {
      assert gap + rest == rest;
    } else {
      assert (gap + rest)[1..] == gap[1..] + rest;
      GapIsSkipped(gap[1..], rest);
    }
  }

  /** A text that starts with a word is that word, and what follows it. */
  lemma {:induction false} FirstWord(s: string) returns (w: string, rest: string)
    requires s != "" && IsAlnum(s[0])
    ensures s == w + rest && |rest| < |s| && (rest != "" ==> !IsAlnum(rest[0]))
    ensures Words(s) == [w] + Words(rest) && Hyphens(s) == w + Hyphens(rest)
  {
    var n := 1 + RunOf(s[1..], true);
    RunEnds(s[1..], true);
    w, rest := s[..n], s[n..];
    assert forall i :: 1 <= i < n ==> w[i] == s[1..][i - 1];
    assert s == w + rest;
    WordStays(w, rest);
    if rest != "" {
      assert rest[0] == s[1..][n - 1];
    }
  }

  /** A text that does not start with one is a gap, and then nothing or one that does. */
  lemma {:induction false} FirstGap(s: string) returns (next: string)
    requires s != "" && !IsAlnum(s[0])
    ensures |next| < |s| && (next != "" ==> IsAlnum(next[0]))
    ensures Words(s) == Words(next) && Hyphens(s) == "-" + Hyphens(next)
  {
    var m := 1 + RunOf(s[1..], false);
    RunEnds(s[1..], false);
    next := s[m..];
    assert forall i :: 1 <= i < m ==> s[..m][i] == s[1..][i - 1];
    assert s == s[..m] + next;
    GapIsSkipped(s[..m], next);
    if next != "" {
      assert next[0] == s[1..][m - 1];
    }
  }

  lemma {:induction false} HyphenatedOneMore(w: string, words: seq<string>)
    ensures Hyphenated([w] + words) == if words == [] then w else w + "-" + Hyphenated(words)
  {
    assert ([w] + words)[1..] == words;
  }

  /** It becomes its words, hyphenated, and perhaps one hyphen more. */
  lemma {:induction false} HyphensOfWords(s: string)
    requires s != "" && IsAlnum(s[0])
    ensures Words(s) != []
    ensures Hyphens(s) == Hyphenated(Words(s)) || Hyphens(s) == Hyphenated(Words(s)) + "-"
    decreases |s|
  {
    var w, rest := FirstWord(s);
    HyphenatedOneMore(w, Words(rest));
    if rest == "" {
      assert w + Hyphens(rest) == w;
    } else {
      var next := FirstGap(rest);
      if next == "" {
        assert Words(rest) == [] && Hyphens(rest) == "-";
      } else {
        HyphensOfWords(next);
        Regroup(w, Hyphenated(Words(next)));
      }
    }
  }

  lemma {:induction false} Regroup(w: string, t: string)
    ensures w + ("-" + t) == w + "-" + t
    ensures w + ("-" + (t + "-")) == (w + "-" + t) + "-"
  {
  }

  lemma {:induction false} WordsAreRuns(s: string, i: nat)
    requires i < |Words(s)|
    ensures Words(s)[i] != "" && forall j :: 0 <= j < |Words(s)[i]| ==> IsAlnum(Words(s)[i][j]) && Words(s)[i][j] in s
    decreases |s|
  {
    if IsAlnum(s[0]) {
      var n := 1 + RunOf(s[1..], true);
      RunEnds(s[1..], true);
      assert forall j :: 1 <= j < n ==> s[j] == s[1..][j - 1];
      if i > 0 {
        WordsAreRuns(s[n..], i - 1);
        assert Words(s)[i] == Words(s[n..])[i - 1];
      }
    } else {
      WordsAreRuns(s[1..], i);
    }
  }

  lemma {:induction false} HyphenatedIsTrimmed(words: seq<string>)
    requires |words| > 0
    requires forall i :: 0 <= i < |words| ==>
               words[i] != "" && !IsDash(words[i][0]) && !IsDash(words[i][|words[i]| - 1])
    ensures var s := Hyphenated(words); s != "" && !IsDash(s[0]) && !IsDash(s[|s| - 1])
  {
    if |words| > 1 {
      HyphenatedIsTrimmed(words[1..]);
      var rest := Hyphenated(words[1..]);
      var s := words[0] + "-" + rest;
      assert s[|s| - 1] == rest[|rest| - 1];
    }
  }

  lemma {:induction false} StripLeadingDash(s: string)
    ensures StripOf("-" + s, IsDash) == StripOf(s, IsDash)
  {
    assert ("-" + s)[1..] == s;
  }

  lemma {:induction false} StripTrailingDash(s: string)
    requires s != "" && !IsDash(s[0])
    ensures StripOf(s + "-", IsDash) == StripOf(s, IsDash)
  {
    assert (s + "-")[..|s|] == s;
  }

  lemma {:induction false} StripHyphens(s: string)
    ensures StripOf(Hyphens(s), IsDash) == Hyphenated(Words(s))
    decreases |s|
  {
    if s == "" {
    } else if IsAlnum(s[0]) {
      WordsHyphenatedAreTrimmed(s);
      HyphensOfWords(s);
      var t := Hyphenated(Words(s));
      TrimmedIsStripped(t, IsDash);
      StripTrailingDash(t);
    } else {
      var next := FirstGap(s);
      StripLeadingDash(Hyphens(next));
      if next != "" {
        StripHyphens(next);
      }
    }
  }

  lemma {:induction false} WordsHyphenatedAreTrimmed(s: string)
    ensures Words(s) != [] ==>
              var t := Hyphenated(Words(s)); t != "" && !IsDash(t[0]) && !IsDash(t[|t| - 1])
  {
    if Words(s) != [] {
      forall i | 0 <= i < |Words(s)|
        ensures Words(s)[i] != "" && !IsDash(Words(s)[i][0]) && !IsDash(Words(s)[i][|Words(s)[i]| - 1])
      {
        WordsAreRuns(s, i);
      }
      HyphenatedIsTrimmed(Words(s));
    }
  }

  // ---------- Main results ----------

  /** The slug is the words of the lower-cased name joined by hyphens, or `project` if it has none. */
  lemma {:induction false} SlugifyJoinsTheWords(value: string, lower: Lowering)
    ensures Slugify(value, lower) == (var words := Words(Lower(Strip(value), lower));
                                      if words == [] then "project" else Hyphenated(words))
  {
    StripHyphens(Lower(Strip(value), lower));
    WordsHyphenatedAreTrimmed(Lower(Strip(value), lower));
  }

  lemma {:induction false} LowerHasNoCapital(s: string, lower: Lowering)
    requires IsLowering(lower)
    ensures forall i :: 0 <= i < |Lower(s, lower)| ==> !('A' <= Lower(s, lower)[i] <= 'Z')
  {
    if s != "" {
      LowerHasNoCapital(s[1..], lower);
      assert forall i :: |lower(s[0])| <= i < |Lower(s, lower)| ==>
                           Lower(s, lower)[i] == Lower(s[1..], lower)[i - |lower(s[0])|];
    }
  }

  lemma {:induction false} WordsWithoutCapitals(text: string)
    requires forall i :: 0 <= i < |text| ==> !('A' <= text[i] <= 'Z')
    ensures forall i :: 0 <= i < |Words(text)| ==> IsWord(Words(text)[i])
  {
    forall i | 0 <= i < |Words(text)|
      ensures IsWord(Words(text)[i])
    {
      WordsAreRuns(text, i);
    }
  }

  lemma {:induction false} SlugifyYieldsASlug(value: string, lower: Lowering)
    requires IsLowering(lower)
    ensures IsSlug(Slugify(value, lower))
  {
    var text := Lower(Strip(value), lower);
    LowerHasNoCapital(Strip(value), lower);
    SlugifyJoinsTheWords(value, lower);
    if Words(text) == [] {
      assert IsSlugOf(["project"], "project");
    } else {
      WordsWithoutCapitals(text);
      assert IsSlugOf(Words(text), Hyphenated(Words(text)));
    }
  }

  lemma {:induction false} WordsOfHyphenated(words: seq<string>)
    requires forall i :: 0 <= i < |words| ==> IsWord(words[i])
    ensures Words(Hyphenated(words)) == words
  {
    if |words| == 1 {
      WordEndsAt(words[0], "");
      assert words[0] + "" == words[0];
    } else if |words| > 1 {
      var rest := Hyphenated(words[1..]);
      WordsOfHyphenated(words[1..]);
      WordEndsAt(words[0], "-" + rest);
      assert words[0] + "-" + rest == words[0] + ("-" + rest);
      GapIsSkipped("-", rest);
    }
  }

  lemma {:induction false} RunOfWord(w: string, rest: string)
    requires forall i :: 0 <= i < |w| ==> IsAlnum(w[i])
    requires rest != "" ==> !IsAlnum(rest[0])
    ensures RunOf(w + rest, true) == |w|
  {
    if w == "" {
      assert w + rest == rest;
    } else {
      assert (w + rest)[1..] == w[1..] + rest;
      RunOfWord(w[1..], rest);
    }
  }

  lemma {:induction false} WordEndsAt(w: string, rest: string)
    requires IsWord(w) && (rest != "" ==> !IsAlnum(rest[0]))
    ensures Words(w + rest) == [w] + Words(rest)
  {
    var s := w + rest;
    assert s[1..] == w[1..] + rest;
    RunOfWord(w[1..], rest);
    assert s[..|w|] == w && s[|w|..] == rest;
  }

  predicate HasSlugChars(s: string) {
    forall i :: 0 <= i < |s| ==> IsWordChar(s[i]) || s[i] == '-'
  }

  lemma {:induction false} SlugChars(words: seq<string>)
    requires forall i :: 0 <= i < |words| ==> IsWord(words[i])
    ensures HasSlugChars(Hyphenated(words))
  {
    if |words| > 1 {
      var rest := Hyphenated(words[1..]);
      SlugChars(words[1..]);
      assert HasSlugChars(words[0] + "-");
      assert HasSlugChars((words[0] + "-") + rest);
    }
  }

  lemma {:induction false} LowerKeeps(s: string, lower: Lowering)
    requires IsLowering(lower) && HasSlugChars(s)
    ensures Lower(s, lower) == s
  {
    if s != "" {
      LowerKeeps(s[1..], lower);
    }
  }

  /** Exactly the slugs are left alone; so slugify is idempotent. */
  lemma {:induction false} SlugsAreTheFixedPoints(s: string, lower: Lowering)
    requires IsLowering(lower)
    ensures Slugify(s, lower) == s <==> IsSlug(s)
    ensures Slugify(Slugify(s, lower), lower) == Slugify(s, lower)
  {
    SlugifyYieldsASlug(s, lower);
    if IsSlug(s) {
      SlugIsKept(s, lower);
    }
    SlugIsKept(Slugify(s, lower), lower);
  }

  lemma {:induction false} SlugIsKept(s: string, lower: Lowering)
    requires IsLowering(lower) && IsSlug(s)
    ensures Slugify(s, lower) == s
  {
    var words :| IsSlugOf(words, s);
    SlugChars(words);
    HyphenatedIsTrimmed(words);
    TrimmedIsStripped(s, IsSpace);
    LowerKeeps(s, lower);
    SlugifyJoinsTheWords(s, lower);
    WordsOfHyphenated(words);
  }

  // ---------- Finding a free slug ----------

  /** The slugs that are tried, in order: the base, then the base with 2, 3 and so on. */
  function Candidate(base: string, n: nat): string {
    if n <= 1 then base else base + "-" + Decimal(n)
  }

  lemma {:induction false} CandidatesDiffer(base: string, m: nat, n: nat)
    requires 1 <= m < n
    ensures Candidate(base, m) != Candidate(base, n)
  {
    var c := Candidate(base, n);
    assert c[|base| + 1..] == Decimal(n);
    if m > 1 {
      assert Candidate(base, m)[|base| + 1..] == Decimal(m);
      if Decimal(m) == Decimal(n) {
        DecimalInjective(m, n);
      }
    }
  }

  /** The first `n` candidates. */
  function Tried(base: string, n: nat): set<string> {
    if n == 0 then {} else Tried(base, n - 1) + {Candidate(base, n)}
  }

  lemma {:induction false} TriedAreMany(base: string, n: nat)
    ensures |Tried(base, n)| == n
    ensures forall s :: s in Tried(base, n) <==> exists m :: 1 <= m <= n && Candidate(base, m) == s
  {
    if n > 0 {
      TriedAreMany(base, n - 1);
      forall m | 1 <= m < n
        ensures Candidate(base, m) != Candidate(base, n)
      {
        CandidatesDiffer(base, m, n);
      }
      assert Candidate(base, n) !in Tried(base, n - 1);
    }
  }

  /** `n` is the number of queries made. */
  ghost predicate IsFirstFree(taken: set<string>, base: string, slug: string, n: nat) {
    && n >= 1 && slug == Candidate(base, n) && slug !in taken
    && forall m :: 1 <= m < n ==> Candidate(base, m) in taken
  }

  /** By the pigeonhole principle it ends at the first free candidate: at most one query more than slugs taken. */
  method AllocateSlug(taken: set<string>, name: string, lower: Lowering) returns (slug: string)
    ensures exists n: nat :: n <= |taken| + 1 && IsFirstFree(taken, Slugify(name, lower), slug, n)
    ensures slug !in taken
  {
    var base := Slugify(name, lower);
    slug := base;
    var suffix := 2;
    while slug in taken
      invariant suffix >= 2 && slug == Candidate(base, suffix - 1)
      invariant forall m :: 1 <= m < suffix - 1 ==> Candidate(base, m) in taken
      invariant suffix - 2 <= |taken|
      decreases |taken| + 2 - suffix
    {
      TakenSoFar(taken, base, suffix - 1);
      slug := base + "-" + Decimal(suffix);
      suffix := suffix + 1;
    }
    assert IsFirstFree(taken, base, slug, suffix - 1);
  }

  lemma {:induction false} TakenSoFar(taken: set<string>, base: string, n: nat)
    requires forall m :: 1 <= m <= n ==> Candidate(base, m) in taken
    ensures n <= |taken|
  {
    TriedAreMany(base, n);
    SubsetIsNoLarger(Tried(base, n), taken);
  }

  /** There is only one such slug, and it is a slug. */
  lemma {:induction false} FirstFreeIsUnique(
    taken: set<string>, name: string, lower: Lowering, m: nat, n: nat, s: string, t: string)
    requires IsLowering(lower)
    requires IsFirstFree(taken, Slugify(name, lower), s, m) && IsFirstFree(taken, Slugify(name, lower), t, n)
    ensures s == t && IsSlug(s)
  {
    var base := Slugify(name, lower);
    SlugifyYieldsASlug(name, lower);
    if m > 1 {
      var words :| IsSlugOf(words, base);
      DecimalIsDigits(m);
      AppendWord(words, Decimal(m));
      assert IsSlugOf(words + [Decimal(m)], s);
    }
  }

  lemma {:induction false} AppendWord(words: seq<string>, w: string)
    requires |words| > 0
    ensures Hyphenated(words + [w]) == Hyphenated(words) + "-" + w
  {
    assert (words + [w])[1..] == words[1..] + [w];
    if |words| > 1 {
      AppendWord(words[1..], w);
    } else {
      assert words[1..] + [w] == [w];
    }
  }
}
