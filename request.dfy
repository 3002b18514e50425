/** What `serpapi_autocomplete` sends and what it keeps of the answer: the
    query parameters of the request and the numbered suggestions taken from the
    response. The HTTP exchange itself is not modelled; a response is the list
    of `value` fields of its `suggestions` entries. */
module Request {
  import opened Wrappers

  const ENGINE: string := "google_autocomplete"

  /** The localisation settings: country `gl`, language `hl` (possibly with a
      region, as in "en-GB") and the optional autocomplete `client`. */
  datatype Locale = Locale(gl: string, hl: string, client: string)

  type Params = map<string, string>

  /** `hl.split("-")[0]`: the text before the first `-`, or all of it. */
  function LanguagePart(hl: string): (r: string)
    ensures '-' !in r
    ensures r <= hl
    ensures |r| < |hl| ==> hl[|r|] == '-'
  {
    if hl == [] || hl[0] == '-' then [] else [hl[0]] + LanguagePart(hl[1..])
  }

  /** A language tag with a region is cut down to its language: "en-GB" gives "en". */
  lemma LanguagePartOfTag(lang: string, region: string)
    requires '-' !in lang
    ensures LanguagePart(lang + "-" + region) == lang
  {
    var hl := lang + "-" + region;
    assert hl[|lang|] == '-';
    assert LanguagePart(hl) == hl[..|lang|] == lang;
  }

  lemma LanguagePartExample()
    ensures LanguagePart("en-GB") == "en"
    ensures LanguagePart("fr") == "fr"
  {
    LanguagePartOfTag("en", "GB");
    assert "en" + "-" + "GB" == "en-GB";
    assert LanguagePart("fr") <= "fr";
  }

  /** The request parameters: `engine`, `q` and `api_key` always; `gl`, `hl` and
      `client` only when their setting is non-empty, `hl` cut to its language. */
  function BuildParams(q: string, loc: Locale, apiKey: string): (p: Params)
    ensures p.Keys <= {"engine", "q", "api_key", "gl", "hl", "client"}
    ensures "engine" in p && p["engine"] == ENGINE
    ensures "q" in p && p["q"] == q
    ensures "api_key" in p && p["api_key"] == apiKey
    ensures ("gl" in p <==> loc.gl != []) && ("gl" in p ==> p["gl"] == loc.gl)
    ensures ("hl" in p <==> loc.hl != []) && ("hl" in p ==> p["hl"] == LanguagePart(loc.hl))
    ensures ("client" in p <==> loc.client != []) && ("client" in p ==> p["client"] == loc.client)
  {
    var base := map["engine" := ENGINE, "q" := q, "api_key" := apiKey];
    var withGl := if loc.gl != [] then base["gl" := loc.gl] else base;
    var withHl := if loc.hl != [] then withGl["hl" := LanguagePart(loc.hl)] else withGl;
    if loc.client != [] then withHl["client" := loc.client] else withHl
  }

  /** Python's `if val:` on `s.get("value")`: present and not the empty string. */
  predicate Truthy(v: Option<string>) {
    v.Some? && v.value != []
  }

  /** The `(position, value)` pairs kept from a suggestion list: each truthy
      value with its 1-based place in the list. */
  function Extracted(suggestions: seq<Option<string>>): seq<(nat, string)> {
    if suggestions == [] then []
    else
      var n := |suggestions|;
      var prev := Extracted(suggestions[..n - 1]);
      if Truthy(suggestions[n - 1]) then prev + [(n, suggestions[n - 1].value)] else prev
  }

  /** `v` is the truthy value at 1-based position `pos` of `s`. */
  predicate At(s: seq<Option<string>>, pos: nat, v: string) {
    1 <= pos <= |s| && s[pos - 1] == Some(v) && v != []
  }

  lemma AtPrefix(s: seq<Option<string>>, pos: nat, v: string)
    requires s != [] && At(s[..|s| - 1], pos, v)
    ensures At(s, pos, v)
  {
    assert s[pos - 1] == s[..|s| - 1][pos - 1];
  }

  predicate Sound(s: seq<Option<string>>, r: seq<(nat, string)>) {
    forall k :: 0 <= k < |r| ==> At(s, r[k].0, r[k].1)
  }

  predicate Increasing(r: seq<(nat, string)>) {
    forall k, l :: 0 <= k < l < |r| ==> r[k].0 < r[l].0
  }

  predicate Complete(s: seq<Option<string>>, r: seq<(nat, string)>) {
    forall i :: 0 <= i < |s| && Truthy(s[i]) ==> (i + 1, s[i].value) in r
  }

  /** Every kept pair is a truthy entry at its own 1-based position, and the
      positions increase (they skip the entries that were dropped). */
  lemma {:induction false} ExtractedSound(s: seq<Option<string>>)
    ensures Sound(s, Extracted(s)) && Increasing(Extracted(s))
  {
    if s != [] {
      var n := |s|;
      var p := s[..n - 1];
      ExtractedSound(p);
      var prev, r := Extracted(p), Extracted(s);
      forall k | 0 <= k < |prev|
        ensures At(s, prev[k].0, prev[k].1) && prev[k].0 < n
      {
        AtPrefix(s, prev[k].0, prev[k].1);
      }
      forall k | 0 <= k < |r|
        ensures At(s, r[k].0, r[k].1)
      {
        if k < |prev| {
          assert r[k] == prev[k];
        }
      }
      forall k, l | 0 <= k < l < |r|
        ensures r[k].0 < r[l].0
      {
        assert r[k] == prev[k];
        if l < |prev| {
          assert r[l] == prev[l];
        }
      }
    }
  }

  /** No truthy entry is dropped. */
  lemma {:induction false} ExtractedComplete(s: seq<Option<string>>)
    ensures Complete(s, Extracted(s))
  {
    if s != [] {
      var n := |s|;
      var p := s[..n - 1];
      ExtractedComplete(p);
      var prev, r := Extracted(p), Extracted(s);
      forall i | 0 <= i < n && Truthy(s[i])
        ensures (i + 1, s[i].value) in r
      {
        if i < n - 1 {
          assert s[i] == p[i];
          assert (i + 1, s[i].value) in prev;
        }
      }
    }
  }

  /** The kept pairs are exactly the truthy entries, each with its own 1-based
      position, in increasing order of position. */
  lemma ExtractedCharacterised(s: seq<Option<string>>)
    ensures var r := Extracted(s);
      && (forall k :: 0 <= k < |r| ==>
            1 <= r[k].0 <= |s| && s[r[k].0 - 1] == Some(r[k].1) && r[k].1 != [])
      && (forall k, l :: 0 <= k < l < |r| ==> r[k].0 < r[l].0)
      && (forall i :: 0 <= i < |s| && Truthy(s[i]) ==> (i + 1, s[i].value) in r)
  {
    ExtractedSound(s);
    ExtractedComplete(s);
  }

  /** The extraction loop of `serpapi_autocomplete`. */
  method ExtractSuggestions(suggestions: seq<Option<string>>) returns (values: seq<(nat, string)>)
    ensures values == Extracted(suggestions)
  {
    values := [];
    for i := 0 to |suggestions|
      invariant values == Extracted(suggestions[..i])
    {
      assert suggestions[..i + 1][..i] == suggestions[..i];
      var val := suggestions[i];
      if Truthy(val) {
        values := values + [(i + 1, val.value)];
      }
    }
    assert suggestions[..|suggestions|] == suggestions;
  }
}
