/** Reading the seed list and expanding each seed into the queries sent for it
    (`expand_queries` and the seed clean-up in app.py). The sidebar toggles the
    source reads as module globals are the explicit `Config` here. */
module Expansion {
  import opened Text
  import opened OrderedSet

  /** `string.ascii_lowercase`. */
  const ALPHABET: string := seq(26, i requires 0 <= i < 26 => ('a' as int + i) as char)

  /** The generation toggles: A–Z expansion on or off, and the prefix and suffix
      lists (both empty when "Use prefix/suffix lists" is off). */
  datatype Config = Config(useAz: bool, prefixes: seq<string>, suffixes: seq<string>)

  /** `[f"{seed} {ch}" for ch in string.ascii_lowercase]` */
  function AzVariants(seed: string): seq<string> {
    seq(|ALPHABET|, i requires 0 <= i < |ALPHABET| => seed + " " + [ALPHABET[i]])
  }

  /** `[f"{p} {seed}" for p in prefixes]` */
  function PrefixVariants(seed: string, prefixes: seq<string>): seq<string> {
    seq(|prefixes|, i requires 0 <= i < |prefixes| => prefixes[i] + " " + seed)
  }

  /** `[f"{seed} {s}" for s in suffixes]` */
  function SuffixVariants(seed: string, suffixes: seq<string>): seq<string> {
    seq(|suffixes|, i requires 0 <= i < |suffixes| => seed + " " + suffixes[i])
  }

  /** The variant list before cleaning: the seed, the A–Z variants when enabled,
      then the prefixed and the suffixed variants. */
  function Candidates(seed: string, cfg: Config): seq<string> {
    [seed]
    + (if cfg.useAz then AzVariants(seed) else [])
    + PrefixVariants(seed, cfg.prefixes)
    + SuffixVariants(seed, cfg.suffixes)
  }

  /** `expand_queries(seed)`: the candidates, stripped, without blanks and
      without repeats. The result is a list of distinct, non-blank, stripped
      queries, and it starts with the stripped seed whenever that is not blank. */
  function ExpandQueries(seed: string, cfg: Config): (r: seq<string>)
    ensures NoDup(r)
    ensures forall i :: 0 <= i < |r| ==> r[i] != [] && IsStripped(r[i])
    ensures Strip(seed) != [] ==> r != [] && r[0] == Strip(seed)
  {
    var cleaned := StripNonBlank(Candidates(seed, cfg));
    assert Strip(seed) != [] ==> cleaned != [] && cleaned[0] == Strip(seed) by {
      assert Candidates(seed, cfg)[0] == seed;
    }
    assert Strip(seed) != [] ==> Dedupe(cleaned) != [] && Dedupe(cleaned)[0] == Strip(seed) by {
      if Strip(seed) != [] {
        DedupeKeepsHead(cleaned);
      }
    }
    Dedupe(cleaned)
  }

  /** A query is produced exactly when it is the non-blank stripping of some candidate. */
  lemma ExpandQueriesMembers(seed: string, cfg: Config, x: string)
    ensures x in ExpandQueries(seed, cfg) <==>
      x != [] && exists v :: v in Candidates(seed, cfg) && Strip(v) == x
  {
    var cleaned := StripNonBlank(Candidates(seed, cfg));
    StripNonBlankMembers(Candidates(seed, cfg));
    if x in ExpandQueries(seed, cfg) {
      var i :| 0 <= i < |ExpandQueries(seed, cfg)| && ExpandQueries(seed, cfg)[i] == x;
      assert x in cleaned;
    }
    if x != [] && exists v :: v in Candidates(seed, cfg) && Strip(v) == x {
      assert x in cleaned;
      var i :| 0 <= i < |cleaned| && cleaned[i] == x;
      assert cleaned[i] in Dedupe(cleaned);
    }
  }

  /** The queries keep the order in which they first occur in the cleaned
      candidate list, which is the order in which the first candidate stripping
      to each of them occurs. */
  lemma ExpandQueriesKeepsOrder(seed: string, cfg: Config)
    ensures var cleaned, r := StripNonBlank(Candidates(seed, cfg)), ExpandQueries(seed, cfg);
      forall i, j :: 0 <= i < j < |r| ==> IndexOf(cleaned, r[i]) < IndexOf(cleaned, r[j])
    ensures InFirstStrippedOrder(Candidates(seed, cfg), ExpandQueries(seed, cfg))
  {
    DedupeKeepsFirstOrder(StripNonBlank(Candidates(seed, cfg)));
    DedupeStripNonBlankOrder(Candidates(seed, cfg));
  }

  /** When the candidates are already clean and distinct, they are the queries. */
  lemma ExpandOfCleanCandidates(seed: string, cfg: Config)
    requires forall i :: 0 <= i < |Candidates(seed, cfg)| ==>
      Candidates(seed, cfg)[i] != [] && IsStripped(Candidates(seed, cfg)[i])
    requires NoDup(Candidates(seed, cfg))
    ensures ExpandQueries(seed, cfg) == Candidates(seed, cfg)
  {
    StripNonBlankOfClean(Candidates(seed, cfg));
    DedupeOfDistinct(Candidates(seed, cfg));
  }

  /** With every toggle off, a clean seed is its own only query. */
  lemma ExpandBare(seed: string)
    requires seed != [] && IsStripped(seed)
    ensures ExpandQueries(seed, Config(false, [], [])) == [seed]
  {
    assert Candidates(seed, Config(false, [], [])) == [seed];
    ExpandOfCleanCandidates(seed, Config(false, [], []));
  }

  lemma LetterIsNotSpace(i: nat)
    requires i < |ALPHABET|
    ensures 'a' <= ALPHABET[i] <= 'z' && !IsSpace(ALPHABET[i])
  {
  }

  lemma AzVariantsClean(seed: string)
    requires seed != [] && IsStripped(seed)
    ensures forall i :: 0 <= i < |AzVariants(seed)| ==> IsStripped(AzVariants(seed)[i])
    ensures forall i :: 0 <= i < |AzVariants(seed)| ==> AzVariants(seed)[i] != seed
    ensures NoDup(AzVariants(seed))
  {
    var az := AzVariants(seed);
    forall i | 0 <= i < |az|
      ensures IsStripped(az[i]) && az[i] != seed
    {
      LetterIsNotSpace(i);
      assert az[i][0] == seed[0];
      assert |az[i]| == |seed| + 2;
    }
    forall i, j | 0 <= i < j < |az|
      ensures az[i] != az[j]
    {
      assert az[i][|seed| + 1] == ALPHABET[i];
      assert az[j][|seed| + 1] == ALPHABET[j];
    }
  }

  /** With A–Z expansion on and no prefixes or suffixes, a clean seed gives
      27 queries: the seed, then "seed a" to "seed z" in alphabet order. */
  lemma ExpandAz(seed: string)
    requires seed != [] && IsStripped(seed)
    ensures var r := ExpandQueries(seed, Config(true, [], []));
      && |r| == 27
      && r[0] == seed
      && forall i :: 1 <= i < 27 ==> r[i] == seed + " " + [ALPHABET[i - 1]]
  {
    var cfg := Config(true, [], []);
    var cands := Candidates(seed, cfg);
    var az := AzVariants(seed);
    assert cands == [seed] + az;
    AzVariantsClean(seed);
    assert NoDup(cands) by {
      forall i, j | 0 <= i < j < |cands|
        ensures cands[i] != cands[j]
      {
        if i == 0 {
          assert cands[j] == az[j - 1];
        } else {
          assert cands[i] == az[i - 1] && cands[j] == az[j - 1];
        }
      }
    }
    ExpandOfCleanCandidates(seed, cfg);
  }

  /** A prefix and a suffix together: "coffee" (the playground's default query,
      app.py:181) with the default prefix "best" (app.py:83) and the default
      suffix "near me" (app.py:88) gives the seed, the prefixed and the suffixed query,
      each once and in that order. */
  lemma ExpandCoffee()
    ensures ExpandQueries("coffee", Config(false, ["best"], ["near me"]))
         == ["coffee", "best coffee", "coffee near me"]
  {
    var cfg := Config(false, ["best"], ["near me"]);
    assert "best" + " " + "coffee" == "best coffee";
    assert "coffee" + " " + "near me" == "coffee near me";
    assert PrefixVariants("coffee", ["best"]) == ["best coffee"];
    assert SuffixVariants("coffee", ["near me"]) == ["coffee near me"];
    assert Candidates("coffee", cfg) == ["coffee", "best coffee", "coffee near me"];
    ExpandOfCleanCandidates("coffee", cfg);
  }

  /** `keep_seed_row` puts the seed in front when it is missing from the queries. */
  function WithSeedRow(queries: seq<string>, seed: string, keepSeedRow: bool): seq<string> {
    if keepSeedRow && seed !in queries then [seed] + queries else queries
  }

  /** For a clean seed the `keep_seed_row` re-insertion never fires: the seed
      is already the first query. */
  lemma SeedRowIsNoOp(seed: string, cfg: Config, keepSeedRow: bool)
    requires seed != [] && IsStripped(seed)
    ensures WithSeedRow(ExpandQueries(seed, cfg), seed, keepSeedRow) == ExpandQueries(seed, cfg)
    ensures ExpandQueries(seed, cfg)[0] == seed
  {
    StripFixes(seed);
  }

  /** `[x.strip() for x in text.splitlines() if x.strip()]`, the shape in which
      the seed, prefix and suffix text areas are read. */
  function ParseLines(text: string): (r: seq<string>)
    ensures forall i :: 0 <= i < |r| ==> r[i] != [] && IsStripped(r[i]) && NoLineBreak(r[i])
  {
    var lines := SplitLines(text);
    StripNonBlankKeepsNoLineBreak(lines);
    StripNonBlank(lines)
  }

  /** The seed list of a batch: one seed per non-blank line, stripped, each kept
      once where it first occurs. */
  function NormaliseSeeds(text: string): (seeds: seq<string>)
    ensures NoDup(seeds)
    ensures forall i :: 0 <= i < |seeds| ==>
      seeds[i] != [] && IsStripped(seeds[i]) && NoLineBreak(seeds[i])
  {
    Dedupe(ParseLines(text))
  }

  /** A seed is in the list exactly when some line of the text strips to it. */
  lemma NormaliseSeedsMembers(text: string, x: string)
    ensures x in NormaliseSeeds(text) <==>
      x != [] && exists line :: line in SplitLines(text) && Strip(line) == x
  {
    var parsed := ParseLines(text);
    StripNonBlankMembers(SplitLines(text));
    if x in NormaliseSeeds(text) {
      var i :| 0 <= i < |NormaliseSeeds(text)| && NormaliseSeeds(text)[i] == x;
      assert x in parsed;
    }
    if x != [] && exists line :: line in SplitLines(text) && Strip(line) == x {
      assert x in parsed;
      var i :| 0 <= i < |parsed| && parsed[i] == x;
      assert parsed[i] in Dedupe(parsed);
    }
  }

  /** Seeds keep the order of their first appearance in the text: the first
      line stripping to an earlier seed comes before the first line stripping
      to a later one. */
  lemma NormaliseSeedsKeepsOrder(text: string)
    ensures var parsed, seeds := ParseLines(text), NormaliseSeeds(text);
      forall i, j :: 0 <= i < j < |seeds| ==> IndexOf(parsed, seeds[i]) < IndexOf(parsed, seeds[j])
    ensures InFirstStrippedOrder(SplitLines(text), NormaliseSeeds(text))
  {
    DedupeKeepsFirstOrder(ParseLines(text));
    DedupeStripNonBlankOrder(SplitLines(text));
  }
}
