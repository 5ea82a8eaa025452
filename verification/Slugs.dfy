/** Slugs (backend/app/core/slugs.py) and the probe for a free one
    (backend/app/services/organization_service.py, `_unique_org_slug`). */
module Slugs {
  import opened Text

  predicate IsAlnum(c: char) {
    'a' <= c <= 'z' || '0' <= c <= '9'
  }

  /** ASCII a to z and 0 to 9, and nothing else. */
  lemma AlnumsAre(c: char)
    ensures IsAlnum(c) <==> 97 <= c as int <= 122 || 48 <= c as int <= 57
  {
  }

  predicate IsWord(s: string) {
    s != [] && forall k :: 0 <= k < |s| ==> IsAlnum(s[k])
  }

  /** How far the prefix of `s` with (or without) alphanumerics reaches. */
  function Prefix(s: string, alnum: bool): (n: nat)
    ensures n <= |s| && forall k :: 0 <= k < n ==> IsAlnum(s[k]) == alnum
    ensures n < |s| ==> IsAlnum(s[n]) != alnum
  {
    if s == [] || IsAlnum(s[0]) != alnum then 0 else 1 + Prefix(s[1..], alnum)
  }

  // ----- slugify as the code computes it -----

  /** `re.sub(r"[^a-z0-9]+", "-", s)`. */
  function Collapse(s: string): string {
    if s == [] then []
    else if IsAlnum(s[0]) then [s[0]] + Collapse(s[1..])
    else "-" + Collapse(s[Prefix(s, false)..])
  }

  function StripLeft(s: string): string {
    if s != [] && s[0] == '-' then StripLeft(s[1..]) else s
  }

  function StripRight(s: string): string {
    if s != [] && s[|s| - 1] == '-' then StripRight(s[..|s| - 1]) else s
  }

  /** `lower` is str.lower and `freshId` the hex digits of a new UUID. */
  function Slugify(lower: string -> string, value: string, freshId: string): string {
    var slug := StripRight(StripLeft(Collapse(lower(value))));
    if slug != [] then slug else freshId
  }

  // ----- what it means -----

  /** The maximal alphanumeric runs of a text, in order. */
  function Runs(s: string): (r: seq<string>)
    ensures forall k :: 0 <= k < |r| ==> IsWord(r[k])
  {
    if s == [] then []
    else if IsAlnum(s[0]) then [s[..Prefix(s, true)]] + Runs(s[Prefix(s, true)..])
    else Runs(s[1..])
  }

  function Join(words: seq<string>): string {
    if words == [] then [] else if |words| == 1 then words[0] else words[0] + "-" + Join(words[1..])
  }

  ghost predicate IsSlug(s: string) {
    exists words :: IsSlugOf(s, words)
  }

  ghost predicate IsSlugOf(s: string, words: seq<string>) {
    words != [] && s == Join(words) && forall k :: 0 <= k < |words| ==> IsWord(words[k])
  }

  /** Lowering leaves lower-case ASCII letters, digits and hyphens alone. */
  ghost predicate IsLower(lower: string -> string) {
    forall s: string :: (forall k :: 0 <= k < |s| ==> IsAlnum(s[k]) || s[k] == '-') ==> lower(s) == s
  }

  lemma {:induction false} CollapseRun(s: string)
    ensures Collapse(s) == s[..Prefix(s, true)] + Collapse(s[Prefix(s, true)..])
    decreases |s|
  {
    if s != [] && IsAlnum(s[0]) {
      CollapseRun(s[1..]);
      FirstAndRest(s, Prefix(s[1..], true), Collapse(s[1 + Prefix(s[1..], true)..]));
    } else {
      assert s[..0] + Collapse(s[0..]) == Collapse(s[0..]) && s[0..] == s;
    }
  }

  lemma FirstAndRest(s: string, n: nat, tail: string)
    requires n < |s|
    ensures s[1..][n..] == s[1 + n..]
    ensures [s[0]] + (s[1..][..n] + tail) == s[..1 + n] + tail
  {
    assert s[..1 + n] == [s[0]] + s[1..][..n];
  }

  lemma {:induction false} RunsSkipGap(s: string)
    ensures Runs(s) == Runs(s[Prefix(s, false)..])
    decreases |s|
  {
    if s != [] && !IsAlnum(s[0]) {
      RunsSkipGap(s[1..]);
      assert s[1..][Prefix(s[1..], false)..] == s[Prefix(s, false)..];
    } else {
      assert s[0..] == s;
    }
  }

  function Hyphen(present: bool): string {
    if present then "-" else ""
  }

  predicate EndsInGap(s: string) {
    s != [] && !IsAlnum(s[|s| - 1])
  }

  /** From the start of a run on, collapsing gives the runs joined by hyphens, and one more hyphen if the
      text ends in a gap. */
  lemma {:induction false} CollapseJoinsRuns(s: string)
    requires s == [] || IsAlnum(s[0])
    ensures Collapse(s) == Join(Runs(s)) + Hyphen(EndsInGap(s))
    ensures s != [] ==> Runs(s) != []
    decreases |s|
  {
    if s != [] {
      CollapseRun(s);
      var n := Prefix(s, true);
      var word, rest := s[..n], s[n..];
      if rest == [] {
        assert s == word && Runs(rest) == [];
        assert Join([word]) == word;
        assert s[|s| - 1] == word[n - 1];
      } else {
        CollapseAfterGap(s, n);
      }
    }
  }

  lemma {:induction false} CollapseAfterGap(s: string, n: nat)
    requires s != [] && IsAlnum(s[0]) && n == Prefix(s, true) && n < |s|
    requires Collapse(s) == s[..n] + Collapse(s[n..])
    ensures Collapse(s) == Join(Runs(s)) + Hyphen(EndsInGap(s))
    decreases |s|, 0
  {
    var word, rest := s[..n], s[n..];
    var g := Prefix(rest, false);
    var next := rest[g..];
    CollapseJoinsRuns(next);
    RunsSkipGap(rest);
    assert Runs(s) == [word] + Runs(next);
    assert Collapse(rest) == "-" + Collapse(next);
    if next == [] {
      assert [word] + Runs(next) == [word] && Join([word]) == word && "-" + Collapse(next) == "-";
      assert s[|s| - 1] == rest[|rest| - 1];
    } else {
      assert next[|next| - 1] == s[|s| - 1];
      JoinFirst(word, Runs(next), Hyphen(EndsInGap(s)));
    }
  }

  lemma JoinFirst(word: string, words: seq<string>, tail: string)
    requires words != []
    ensures word + ("-" + (Join(words) + tail)) == Join([word] + words) + tail
  {
    assert ([word] + words)[1..] == words;
    assert word + ("-" + (Join(words) + tail)) == word + "-" + Join(words) + tail;
  }

  /** A word list joined never starts or ends with a hyphen. */
  lemma {:induction false} JoinEnds(words: seq<string>)
    requires words != [] && forall k :: 0 <= k < |words| ==> IsWord(words[k])
    ensures var s := Join(words); s != [] && IsAlnum(s[0]) && IsAlnum(s[|s| - 1])
    ensures forall k :: 0 <= k < |Join(words)| ==> IsAlnum(Join(words)[k]) || Join(words)[k] == '-'
    decreases |words|
  {
    if |words| > 1 {
      JoinEnds(words[1..]);
    }
  }

  lemma StripLeftHyphen(t: string, left: bool)
    requires t == [] || t[0] != '-'
    ensures StripLeft(Hyphen(left) + t) == t
  {
    assert StripLeft(t) == t;
    if left {
      assert ("-" + t)[1..] == t;
    } else {
      assert "" + t == t;
    }
  }

  lemma StripRightHyphen(s: string, right: bool)
    requires s == [] || s[|s| - 1] != '-'
    ensures StripRight(s + Hyphen(right)) == s
  {
    assert StripRight(s) == s;
    if right {
      assert (s + "-")[..|s|] == s;
    } else {
      assert s + "" == s;
    }
  }

  lemma StripHyphens(s: string, left: bool, right: bool)
    requires s == [] || (s[0] != '-' && s[|s| - 1] != '-')
    requires s == [] ==> !right
    ensures StripRight(StripLeft(Hyphen(left) + (s + Hyphen(right)))) == s
  {
    StripLeftHyphen(s + Hyphen(right), left);
    StripRightHyphen(s, right);
  }

  /** slugify is: the alphanumeric runs of the lowered text, joined by hyphens; or the fresh id if there
      are none. */
  lemma SlugifyJoinsRuns(lower: string -> string, value: string, freshId: string)
    ensures Slugify(lower, value, freshId) ==
      if Runs(lower(value)) != [] then Join(Runs(lower(value))) else freshId
  {
    var s := lower(value);
    var g := Prefix(s, false);
    var body := s[g..];
    CollapseJoinsRuns(body);
    RunsSkipGap(s);
    if body != [] {
      JoinEnds(Runs(body));
    } else {
      assert Runs(body) == [];
    }
    if g > 0 {
      assert Collapse(s) == "-" + Collapse(body);
    } else {
      assert body == s && "" + Collapse(s) == Collapse(s);
    }
    assert Collapse(s) == Hyphen(g > 0) + (Join(Runs(body)) + Hyphen(EndsInGap(body)));
    StripHyphens(Join(Runs(body)), g > 0, EndsInGap(body));
  }

  lemma {:induction false} RunsOfJoin(words: seq<string>)
    requires forall k :: 0 <= k < |words| ==> IsWord(words[k])
    ensures Runs(Join(words)) == words
    decreases |words|
  {
    if words != [] {
      var s, w := Join(words), words[0];
      assert words == [w] + words[1..];
      if |words| == 1 {
        PrefixIs(s, |w|);
        assert s[|w|..] == [] && s[..|w|] == w;
      } else {
        RunsOfJoin(words[1..]);
        var rest := "-" + Join(words[1..]);
        assert s == w + rest;
        PrefixIs(s, |w|);
        assert s[..|w|] == w && s[|w|..] == rest && rest[1..] == Join(words[1..]);
      }
    }
  }

  lemma {:induction false} PrefixIs(s: string, n: nat)
    requires n <= |s| && (forall k :: 0 <= k < n ==> IsAlnum(s[k])) && (n < |s| ==> !IsAlnum(s[n]))
    ensures Prefix(s, true) == n
  {
  }

  /** slugify always yields a slug. */
  lemma SlugifyYieldsSlug(lower: string -> string, value: string, freshId: string)
    requires IsWord(freshId)
    ensures IsSlug(Slugify(lower, value, freshId))
  {
    SlugifyJoinsRuns(lower, value, freshId);
    var words := Runs(lower(value));
    if words != [] {
      assert IsSlugOf(Join(words), words);
    } else {
      assert IsSlugOf(freshId, [freshId]);
    }
  }

  /** Exactly the slugs are left alone by slugify; so slugifying twice is slugifying once. */
  lemma SlugifyFixesExactlySlugs(lower: string -> string, s: string, freshId: string)
    requires IsLower(lower) && IsWord(freshId)
    ensures Slugify(lower, s, freshId) == s <==> IsSlug(s)
  {
    if IsSlug(s) {
      var words :| IsSlugOf(s, words);
      JoinEnds(words);
      RunsOfJoin(words);
      SlugifyJoinsRuns(lower, s, freshId);
    }
    SlugifyYieldsSlug(lower, s, freshId);
  }

  lemma SlugifyIsIdempotent(lower: string -> string, value: string, freshId: string, freshId': string)
    requires IsLower(lower) && IsWord(freshId) && IsWord(freshId')
    ensures Slugify(lower, Slugify(lower, value, freshId), freshId') == Slugify(lower, value, freshId)
  {
    SlugifyYieldsSlug(lower, value, freshId);
    SlugifyFixesExactlySlugs(lower, Slugify(lower, value, freshId), freshId');
  }

  // ----- the probe -----

  /** The n-th candidate: the slug itself, then slug-2, slug-3, ... */
  function Candidate(slug: string, n: nat): string {
    if n <= 1 then slug else slug + "-" + Decimal(n)
  }

  /** The slug itself, then slug-2, slug-3 and so on. */
  lemma FirstCandidates(slug: string)
    ensures Candidate(slug, 1) == slug && Candidate(slug, 2) == slug + "-2" && Candidate(slug, 3) == slug + "-3"
  {
  }

  lemma CandidatesDiffer(slug: string, m: nat, n: nat)
    requires 1 <= m < n
    ensures Candidate(slug, m) != Candidate(slug, n)
  {
    var c := Candidate(slug, n);
    assert c[|slug| + 1..] == Decimal(n);
    if m > 1 && Candidate(slug, m) == c {
      assert Candidate(slug, m)[|slug| + 1..] == Decimal(m);
      DecimalInjective(m, n);
    }
  }

  /** Pigeonhole: as many candidates as are taken, so many slugs exist. */
  lemma {:induction false} TakenCandidates(slug: string, existing: set<string>, n: nat)
    requires forall m :: 1 <= m <= n ==> Candidate(slug, m) in existing
    ensures n <= |existing|
    decreases n
  {
    if n > 0 {
      var last := Candidate(slug, n);
      forall m | 1 <= m <= n - 1 ensures Candidate(slug, m) in existing - {last} {
        CandidatesDiffer(slug, m, n);
      }
      TakenCandidates(slug, existing - {last}, n - 1);
    }
  }

  lemma {:induction false} JoinAppend(words: seq<string>, w: string)
    requires words != []
    ensures Join(words + [w]) == Join(words) + "-" + w
    decreases |words|
  {
    if |words| == 1 {
      assert (words + [w])[1..] == [w];
    } else {
      JoinAppend(words[1..], w);
      assert (words + [w])[1..] == words[1..] + [w];
    }
  }

  lemma CandidateIsSlug(slug: string, n: nat)
    requires IsSlug(slug)
    ensures IsSlug(Candidate(slug, n))
  {
    if n > 1 {
      var words :| IsSlugOf(slug, words);
      JoinAppend(words, Decimal(n));
      assert IsSlugOf(Candidate(slug, n), words + [Decimal(n)]);
    }
  }

  /** The probe ends within one test more than there are slugs, on the first free candidate. */
  method UniqueOrgSlug(lower: string -> string, base: string, freshId: string, existing: set<string>)
    returns (candidate: string, suffix: nat)
    requires IsWord(freshId)
    ensures candidate !in existing && IsSlug(candidate)
    ensures 1 <= suffix <= |existing| + 1
    ensures candidate == Candidate(Slugify(lower, base, freshId), suffix)
    ensures suffix == 1 ==> candidate == Slugify(lower, base, freshId)
    ensures suffix > 1 ==> candidate == Slugify(lower, base, freshId) + "-" + Decimal(suffix)
    ensures forall m :: 1 <= m < suffix ==> Candidate(Slugify(lower, base, freshId), m) in existing
  {
    var slug := Slugify(lower, base, freshId);
    candidate := slug;
    suffix := 1;
    while candidate in existing
      invariant 1 <= suffix <= |existing| + 1
      invariant candidate == Candidate(slug, suffix)
      invariant forall m :: 1 <= m < suffix ==> Candidate(slug, m) in existing
      decreases |existing| + 1 - suffix
    {
      TakenCandidates(slug, existing, suffix);
      suffix := suffix + 1;
      candidate := slug + "-" + Decimal(suffix);
    }
    SlugifyYieldsSlug(lower, base, freshId);
    CandidateIsSlug(slug, suffix);
  }
}
