# Autocomplete keyword scraper — verified model

The application takes a list of seed phrases, expands each one into query
variants (the seed itself, `seed a` … `seed z`, `prefix seed` and
`seed suffix`), and sends every variant to the SerpAPI Google Autocomplete
endpoint through a retry helper with linear backoff. Each suggestion returned
becomes a result row, and so does each failure. The rows can be de-duplicated
per seed. A summary counts the distinct suggestions per seed.

This project models the logic of that application in Dafny:

- `Text`: Python's `str.strip` and `str.splitlines` on Unicode whitespace and
  line boundaries, and the "strip, drop blanks" comprehension.
- `OrderedSet`: `list(dict.fromkeys(...))`, order-preserving de-duplication.
- `Expansion`: `expand_queries`, the `keep_seed_row` insertion, and seed
  normalisation from the text area.
- `Request`: the request parameters built by `serpapi_autocomplete` and the
  extraction of `(position, value)` pairs from a response.
- `Retry`: `with_retry`, as a function and as the loop that computes it.
- `Batch`: the "Run autocomplete" handler. It covers the two preflight
  errors, the query plan, the nested loop that sends every query and appends
  its rows, and the progress value.
- `Aggregate`: the optional per-seed de-duplication of rows and the summary
  of distinct suggestions per seed.

The autocomplete service is a parameter of type `Network`. It is a function
of the request parameters and of how many calls the run has made before, so
a retried call can answer differently. Sleeps are not slept. They are
recorded in order: a `Backoff(seconds)` for each retry and a `Pace` after
each query.

## Model

| member | source | states |
|---|---|---|
| Text.Strip | app.py:164 | the stripped text starts and ends with a non-space character or is empty |
| Text.StripIsSlice | app.py:171 | the stripped text is a slice of the input with only whitespace cut off on either side |
| Text.StripUnique | app.py:171 | any slice that cuts only whitespace and leaves a stripped text equals `Strip` (strip removes exactly the outer whitespace) |
| Text.StripFixes | app.py:164 | stripping changes nothing exactly when the text is already stripped |
| Text.StripBlank | app.py:164 | a value strips to the empty string exactly when it is all whitespace (the `if v.strip()` filter) |
| Text.SplitLines | app.py:171 | no line produced by `splitlines` contains a line boundary, and a text has lines exactly when it is non-empty |
| Text.SplitLinesKeepsText | app.py:171 | concatenating the lines gives back the input without its line boundaries: no character is lost or invented |
| Text.SplitAtBreak | app.py:171 | a boundary-free line followed by any single-character boundary (`\n`, `\r` not before `\n`, `\v`, `\f`, `\x1c`-`\x1e`, `\x85`, `\u2028`, `\u2029`) is split off as one line, and the rest is split on its own |
| Text.SplitAtCrLf | app.py:171 | `\r\n` is one boundary: the line before it is split off with no empty line between `\r` and `\n` |
| Text.SplitAtNewline | app.py:171 | a boundary-free line followed by `\n` is split off as one line, and the rest is split on its own |
| Text.SplitJoinedLines | app.py:171 | the text is split at every `\n`: boundary-free lines joined with `\n`, the last one non-empty, split back into exactly those lines, empty middle lines included |
| Text.SplitDefaultSeeds | app.py:170-171 | the default text area `web design` / `website builder` gives exactly those two lines |
| Text.StripNonBlank | app.py:164 | every kept entry is non-empty and stripped |
| Text.StripNonBlankMembers | app.py:164 | every input whose stripped form is non-empty contributes that stripped form |
| Text.StripNonBlankOfClean | app.py:164 | on already clean entries the comprehension is the identity |
| Text.StripNonBlankAppend | app.py:164 | the comprehension works entry by entry: on a concatenation it is the concatenation of its results, so input order is kept |
| Text.FirstStrippedTo | app.py:164 | the index returned is the first entry that strips to the value |
| Text.StripNonBlankFirstOrder | app.py:164 | of two kept entries, one comes before the other exactly when the input first strips to it earlier |
| Text.DedupeStripNonBlankOrder | app.py:164 | `dict.fromkeys` over the comprehension lists each value that some entry strips to, in the order the input first strips to them |
| OrderedSet.IndexOf | app.py:164 | the index returned holds the element and no earlier index does |
| OrderedSet.Dedupe | app.py:164 | `dict.fromkeys` has no duplicates, keeps exactly the input's elements and is no longer than the input |
| OrderedSet.DedupeKeepsFirstOrder | app.py:172 | kept elements appear in the order of their first occurrence in the input |
| OrderedSet.DedupeOfDistinct | app.py:172 | a list without duplicates is unchanged |
| OrderedSet.DedupeKeepsHead | app.py:164 | the first element of a non-empty list stays first |
| Expansion.ExpandQueries | app.py:154-164 | the variants are distinct, non-empty and stripped, and the stripped seed comes first when it is not blank |
| Expansion.ExpandQueriesMembers | app.py:156-164 | a query is produced iff it is the non-empty stripped form of some candidate: the seed, an a-z variant when enabled, a prefix variant or a suffix variant |
| Expansion.ExpandQueriesKeepsOrder | app.py:164 | the variants keep the order of their first occurrence among the cleaned candidates, which is the order of the first candidate stripping to each |
| Expansion.ExpandBare | app.py:156-164 | with no toggles a clean seed expands to itself only |
| Expansion.AzVariantsClean | app.py:157-158 | the 26 a-z variants of a clean seed are already stripped, differ from the seed and are distinct |
| Expansion.ExpandAz | app.py:157-158 | with only the a-z toggle a clean seed gives 27 queries: the seed, then `seed a` … `seed z` |
| Expansion.ExpandCoffee | app.py:159-162 | prefix `best` and suffix `near me` on `coffee` give `coffee`, `best coffee`, `coffee near me` |
| Expansion.SeedRowIsNoOp | app.py:207-208 | for a clean seed the seed is already the first query, so the `keep_seed_row` insertion never fires |
| Expansion.ParseLines | app.py:171 | every parsed seed is non-empty, stripped and has no line boundary |
| Expansion.NormaliseSeeds | app.py:171-172 | the seeds are distinct, non-empty, stripped and single-line |
| Expansion.NormaliseSeedsMembers | app.py:171-172 | a seed is kept iff it is the stripped, non-blank form of some line of the input |
| Expansion.NormaliseSeedsKeepsOrder | app.py:171-172 | seeds keep the order of their first occurrence among the parsed lines, which is the order of the first line of the text stripping to each |
| Request.LanguagePart | app.py:115 | `hl2.split("-")[0]` is the longest prefix free of `-`, ending right before the first `-` if there is one |
| Request.LanguagePartOfTag | app.py:115 | a tag `lang-region` is sent as `lang` (so `en-GB` becomes `en`) |
| Request.LanguagePartExample | app.py:115 | `en-GB` gives `en` and `fr` gives `fr` |
| Request.BuildParams | app.py:107-117 | `engine`, `q` and `api_key` are always sent with their values; `gl`, `hl` and `client` are sent iff their setting is non-empty, `hl` as the language part; no other key |
| Request.ExtractedCharacterised | app.py:133-138 | every extracted pair is a truthy `value` at its 1-based position, positions strictly increase, and every truthy value is extracted |
| Request.ExtractSuggestions | app.py:134-138 | the enumerate loop computes exactly the extracted pairs |
| Retry.RetryCharacterised | app.py:143-152 | 1 to `max_retries + 1` calls; all but the last failed; the result is the last call's outcome; a failure only after `max_retries + 1` calls; one sleep between calls, `backoff_base * k` seconds after the k-th failure |
| Retry.RetryFirstSuccess | app.py:145-147 | the first success within budget is returned after exactly that many failures and sleeps |
| Retry.RetryExhausted | app.py:149-151 | when every call fails the last error is re-raised after `max_retries + 1` calls and `max_retries` sleeps |
| Retry.WithRetry | app.py:143-152 | the loop with the `tries` counter returns what `Retry` specifies, sleeps included |
| Batch.SuggestionRowsAt | app.py:218-219 | one row per extracted pair, in order, carrying its position and text |
| Batch.QueryRowsShape | app.py:212-221 | a failed query adds one error row; a successful one adds one row per suggestion with no error, or, when there are none, exactly one row whose position, suggestion and error are all empty; every row names its seed and query and is well formed |
| Batch.QueryRowsSuggestions | app.py:215-219 | the suggestion rows of a query are exactly the truthy response values at their positions |
| Batch.RunSnoc | app.py:210-225 | sending one more query appends exactly that query's rows, calls and sleeps |
| Batch.Progress | app.py:224 | the progress value stays within 100 while `done <= total` and is 100 once all queries are done |
| Batch.PercentBounds | app.py:224 | integer percentages of a positive total are at most 100 and the whole is 100 |
| Batch.JobsForAt | app.py:210 | one job per query of a seed, in order |
| Batch.PlanJobs | app.py:205-210 | every planned job pairs a seed with one of that seed's queries |
| Batch.PlanSendsSeeds | app.py:205-208 | every normalised seed is itself sent as a query |
| Batch.PlanSize | app.py:199-208 | the number of queries sent equals `total_queries`, and it is at least the number of seeds |
| Batch.RunRows | app.py:210-221 | every row of a run is well formed and belongs to a query of the run |
| Batch.RunCoversJobs | app.py:215-221 | every query sent gets at least one row |
| Batch.RunCallsPerJob | app.py:213-225 | each query on its own is sent between one and `max_retries + 1` times and adds one sleep per call |
| Batch.RunCalls | app.py:213-225 | over a run, between one and `max_retries + 1` service calls per query in total, and one sleep per call |
| Batch.PlanRowsFromSeeds | app.py:205-221 | every row names a seed of the batch and one of its queries |
| Batch.PlanRowsCoverSeeds | app.py:205-221 | every seed has a row whose query is the seed itself |
| Batch.PlanPrefix | app.py:205-208 | planning one more seed appends exactly that seed's queries |
| Batch.SentSnoc | app.py:210-225 | sending the next query of a seed appends exactly that query's job and its step |
| Batch.AppendSuggestionRows | app.py:218-219 | the loop appends exactly the suggestion rows |
| Batch.SendQuery | app.py:211-225 | one pass of the inner loop gives the state `Step` specifies |
| Batch.SendSeedQueries | app.py:210-225 | the inner loop sends a seed's queries in order and keeps `done` and the progress value in step |
| Batch.SendSeeds | app.py:205-225 | the outer loop sends the whole plan in order; `done` is the number of queries sent |
| Batch.RunBatch | app.py:190-225 | no key gives the missing-key error; no seeds give the no-seed error; otherwise the run of the whole plan, with progress ending at 100 |
| Aggregate.Best | app.py:233-234 | the row kept for a (seed, suggestion) key has that key and the smallest position, missing positions last |
| Aggregate.DedupeRowsCharacterised | app.py:232-234 | after de-duplication keys are distinct, every row comes from the input, every input key survives, and the kept row has the key's smallest position |
| Aggregate.DedupeSuggestedSubset | app.py:232-234 | de-duplication invents no suggestion for a seed |
| Aggregate.DedupeSuggestedSuperset | app.py:232-234 | de-duplication loses no suggestion of a seed |
| Aggregate.DedupeKeepsSuggested | app.py:232-245 | with or without `unique_only`, each seed's set of distinct suggestions is the same, so the summary does not depend on the toggle |
| Aggregate.SeedsWithSuggestionsMembers | app.py:244-245 | a seed is grouped iff it has at least one non-null suggestion |
| Aggregate.InsertByCount | app.py:247 | insertion adds exactly the one entry |
| Aggregate.InsertByCountSorted | app.py:247 | insertion into a descending list keeps it descending |
| Aggregate.SortByCount | app.py:247 | the summary sort is descending by count and a permutation of its input |
| Aggregate.CountsCharacterised | app.py:243-246 | each grouped seed's count is the number of its distinct non-null suggestions |
| Aggregate.PermutationKeepsDistinctSeeds | app.py:247 | sorting cannot duplicate a seed |
| Aggregate.SummaryCharacterised | app.py:243-248 | the summary is sorted by descending count, lists each seed once, lists exactly the seeds with suggestions, and each count is that seed's number of distinct suggestions, at least 1 |

## Left out

- The Streamlit user interface is not modelled: the sidebar widgets, the text area, the buttons, `st.stop`, the progress bar and status rendering, and the tables shown.
- The CSV download and the single-query playground are not modelled. The playground reuses `with_retry` and the request code, which are modelled.
- The HTTP call is left out: the URL, the timeout, status checking and the error-message text. The model sees a call's outcome as a `Result` whose failure carries some message.
- A response is modelled as the list of the `value` fields of its `suggestions` entries. A missing `suggestions` key is the empty list. Entries that are not dictionaries and a `suggestions: null` body are not modelled; in the source these raise and so take the retry path.
- The `X-RateLimit-Remaining` header and `last_remaining` are not modelled. They only feed the display.
- `time.sleep` is recorded instead of slept. The pacing delay `60 / rpm` is a float, so it is recorded as `Pace` without its length.
- Reading the API key from secrets or the environment is left out. The key is a setting.
- Retry.WithRetry: the wrapped call is a function of the attempt index rather than a live call. A call's outcome can still differ from attempt to attempt.
- Batch.SendQuery: `serpapi_autocomplete` extracts the suggestions inside the retried call. The model extracts after the retry returns. The two agree because extraction cannot fail on a modelled response.
- Batch.Progress: Python computes `done * 100 / max(1, total)` as a float and truncates it with `int`. The model uses integer floor division. The two agree for query counts below 10^14. For larger counts the float quotient can round up to the next integer (for example 67 for 670000000000002 of 1000000000000003 queries), which the model does not reproduce.
- Aggregate.DedupeRowsCharacterised: pandas sorts the frame by seed, suggestion and position before dropping duplicates, so the output row order and the pick among equal positions follow that sort. The model keeps keys in order of first occurrence and picks the first row with the smallest position. The set of kept keys, each key's position and the summary do not depend on that choice.
- Aggregate.SortByCount: pandas' sort is not stable by default, so the order among seeds with equal counts is unspecified. The model inserts ties in a fixed order and only proves the descending order and the permutation.
- Request.BuildParams: when the language setting starts with `-`, the source sends an empty `hl`. The model does the same and proves nothing beyond the prefix characterisation in that case.
