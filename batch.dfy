/** The batch run behind "Run autocomplete": the preflight checks, the plan of
    queries (each normalised seed with its expanded queries), and the loop that
    sends every query through `with_retry` and appends its result rows. The
    service is a function of the request parameters and of the number of calls
    made before in the run, so a retried call may answer differently. */
module Batch {
  import opened Wrappers
  import Text
  import opened OrderedSet
  import opened Expansion
  import opened Request
  import Retry

  /** The `value` fields of a response's `suggestions` entries (`None` where
      an entry has none); a response without `suggestions` is the empty list. */
  type Response = seq<Option<string>>

  /** The outcome of the call made with these parameters when it is the n-th
      call of the run (from 0); a failure carries the exception's message. */
  type Network = (Params, nat) -> Result<Response, string>

  /** One output row: `seed`, `query_sent`, `position`, `suggestion` and `error`. */
  datatype Row = Row(seed: string, querySent: string, position: Option<nat>,
                     suggestion: Option<string>, error: Option<string>)

  /** One query to send, with the seed it was expanded from. */
  datatype Job = Job(seed: string, query: string)

  /** The sidebar settings the batch reads. */
  datatype Settings = Settings(apiKey: string, loc: Locale, maxRetries: nat, backoffBase: nat)

  /** A requested sleep: a retry backoff of some seconds, or the pacing delay
      after each query (`60 / rpm` seconds, not modelled). */
  datatype Pause = Backoff(seconds: nat) | Pace

  /** What the loop has accumulated: the rows, the number of service calls and
      the sleeps, in order. */
  datatype Trace = Trace(rows: seq<Row>, calls: nat, pauses: seq<Pause>)

  /** The two reasons the run stops before sending anything. */
  datatype BatchError = MissingKey | NoSeeds

  /** A row says either a suggestion with its position, or nothing (no
      suggestions, or an error); an error row carries no suggestion. */
  predicate WellFormed(row: Row) {
    && (row.position.Some? <==> row.suggestion.Some?)
    && (row.error.Some? ==> row.suggestion.None?)
    && (row.position.Some? ==> row.position.value >= 1)
    && (row.suggestion.Some? ==> row.suggestion.value != [])
  }

  function SuggestionRows(seed: string, q: string, values: seq<(nat, string)>): seq<Row> {
    if values == [] then []
    else
      var n := |values|;
      SuggestionRows(seed, q, values[..n - 1]) + [Row(seed, q, Some(values[n - 1].0), Some(values[n - 1].1), None)]
  }

  lemma {:induction false} SuggestionRowsAt(seed: string, q: string, values: seq<(nat, string)>)
    ensures |SuggestionRows(seed, q, values)| == |values|
    ensures forall i :: 0 <= i < |values| ==>
      SuggestionRows(seed, q, values)[i] == Row(seed, q, Some(values[i].0), Some(values[i].1), None)
  {
    if values != [] {
      var p := values[..|values| - 1];
      SuggestionRowsAt(seed, q, p);
      var rows := SuggestionRows(seed, q, values);
      forall i | 0 <= i < |rows|
        ensures rows[i] == Row(seed, q, Some(values[i].0), Some(values[i].1), None)
      {
        if i < |p| {
          assert values[i] == p[i];
        }
      }
    }
  }

  /** The rows one query adds: an error row when the call failed, a row
      without suggestion when none was kept, else one row per suggestion. */
  function QueryRows(seed: string, q: string, outcome: Result<Response, string>): seq<Row> {
    match outcome
    case Failure(e) => [Row(seed, q, None, None, Some(e))]
    case Success(resp) =>
      var values := Extracted(resp);
      if values == [] then [Row(seed, q, None, None, None)] else SuggestionRows(seed, q, values)
  }

  /** Every row names this seed and query and is well formed. */
  predicate RowsFor(rows: seq<Row>, seed: string, q: string) {
    forall i :: 0 <= i < |rows| ==> rows[i].seed == seed && rows[i].querySent == q && WellFormed(rows[i])
  }

  /** Every suggestion in the rows is a truthy entry of the response, at its 1-based position. */
  predicate SuggestionsFrom(rows: seq<Row>, resp: Response) {
    forall i :: 0 <= i < |rows| && rows[i].suggestion.Some? ==>
      rows[i].position.Some? && At(resp, rows[i].position.value, rows[i].suggestion.value)
  }

  /** Every truthy entry of the response has its row. */
  predicate SuggestionsKept(rows: seq<Row>, seed: string, q: string, resp: Response) {
    forall i :: 0 <= i < |resp| && Truthy(resp[i]) ==>
      Row(seed, q, Some(i + 1), Some(resp[i].value), None) in rows
  }

  /** A successful query adds `max(1, n)` rows for its n kept suggestions and
      none of them has an error; a failed one adds exactly one row, with the
      error. All rows carry the query and its seed and are well formed. */
  lemma QueryRowsShape(seed: string, q: string, outcome: Result<Response, string>)
    ensures outcome.Failure? ==> QueryRows(seed, q, outcome) == [Row(seed, q, None, None, Some(outcome.error))]
    ensures outcome.Success? ==>
      |QueryRows(seed, q, outcome)| == (if Extracted(outcome.value) == [] then 1 else |Extracted(outcome.value)|)
    ensures outcome.Success? ==>
      forall i :: 0 <= i < |QueryRows(seed, q, outcome)| ==> QueryRows(seed, q, outcome)[i].error.None?
    ensures outcome.Success? && Extracted(outcome.value) == [] ==>
      QueryRows(seed, q, outcome) == [Row(seed, q, None, None, None)]
    ensures RowsFor(QueryRows(seed, q, outcome), seed, q)
  {
    if outcome.Success? {
      var values := Extracted(outcome.value);
      ExtractedSound(outcome.value);
      if values != [] {
        SuggestionRowsAt(seed, q, values);
        var rows := QueryRows(seed, q, outcome);
        forall i | 0 <= i < |rows|
          ensures rows[i].seed == seed && rows[i].querySent == q && WellFormed(rows[i]) && rows[i].error.None?
        {
          assert rows[i] == Row(seed, q, Some(values[i].0), Some(values[i].1), None);
          assert At(outcome.value, values[i].0, values[i].1);
        }
      }
    }
  }

  /** The suggestion rows of a successful query are exactly the truthy
      entries of the response, each at its 1-based position. */
  lemma QueryRowsSuggestions(seed: string, q: string, resp: Response)
    ensures SuggestionsFrom(QueryRows(seed, q, Success(resp)), resp)
    ensures SuggestionsKept(QueryRows(seed, q, Success(resp)), seed, q, resp)
  {
    var values := Extracted(resp);
    var rows := QueryRows(seed, q, Success(resp));
    ExtractedSound(resp);
    ExtractedComplete(resp);
    if values != [] {
      SuggestionRowsAt(seed, q, values);
      forall i | 0 <= i < |rows| && rows[i].suggestion.Some?
        ensures rows[i].position.Some? && At(resp, rows[i].position.value, rows[i].suggestion.value)
      {
        assert rows[i] == Row(seed, q, Some(values[i].0), Some(values[i].1), None);
      }
      forall i | 0 <= i < |resp| && Truthy(resp[i])
        ensures Row(seed, q, Some(i + 1), Some(resp[i].value), None) in rows
      {
        var k :| 0 <= k < |values| && values[k] == (i + 1, resp[i].value);
        assert rows[k] == Row(seed, q, Some(i + 1), Some(resp[i].value), None);
      }
    }
  }

  /** The calls `with_retry` makes for one query, numbered on from `start`. */
  function Attempts(network: Network, params: Params, start: nat): nat -> Result<Response, string> {
    (t: nat) => network(params, start + t)
  }

  function Sleeps(seconds: seq<nat>): seq<Pause> {
    seq(|seconds|, i requires 0 <= i < |seconds| => Backoff(seconds[i]))
  }

  /** One pass of the inner loop: send the query with retries, append its
      rows, then the pacing sleep. */
  function Step(prev: Trace, job: Job, s: Settings, network: Network): Trace {
    var params := BuildParams(job.query, s.loc, s.apiKey);
    var r := Retry.Retry(Attempts(network, params, prev.calls), s.maxRetries, s.backoffBase);
    Trace(prev.rows + QueryRows(job.seed, job.query, r.outcome),
          prev.calls + r.calls,
          prev.pauses + Sleeps(r.sleeps) + [Pace])
  }

  /** The state after the jobs are sent in order. */
  function Run(jobs: seq<Job>, s: Settings, network: Network): Trace {
    if jobs == [] then Trace([], 0, [])
    else Step(Run(jobs[..|jobs| - 1], s, network), jobs[|jobs| - 1], s, network)
  }

  /** Sending one more job appends exactly that job's rows. */
  lemma RunSnoc(jobs: seq<Job>, job: Job, s: Settings, network: Network)
    ensures Run(jobs + [job], s, network) == Step(Run(jobs, s, network), job, s, network)
  {
    assert (jobs + [job])[..|jobs|] == jobs;
  }

  /** The queries of one seed: its expansion, with the seed put in front when
      `keep_seed_row` is on and the seed is missing. */
  function Queries(seed: string, cfg: Config, keepSeedRow: bool): seq<string> {
    WithSeedRow(ExpandQueries(seed, cfg), seed, keepSeedRow)
  }

  function JobsFor(seed: string, queries: seq<string>): seq<Job> {
    if queries == [] then []
    else JobsFor(seed, queries[..|queries| - 1]) + [Job(seed, queries[|queries| - 1])]
  }

  /** The jobs of the whole batch, seed after seed. */
  function Plan(seeds: seq<string>, cfg: Config, keepSeedRow: bool): seq<Job> {
    if seeds == [] then []
    else
      var n := |seeds|;
      Plan(seeds[..n - 1], cfg, keepSeedRow) + JobsFor(seeds[n - 1], Queries(seeds[n - 1], cfg, keepSeedRow))
  }

  /** `total_queries = sum(len(expand_queries(seed)) for seed in seeds)`. */
  function TotalQueries(seeds: seq<string>, cfg: Config): nat {
    if seeds == [] then 0
    else TotalQueries(seeds[..|seeds| - 1], cfg) + |ExpandQueries(seeds[|seeds| - 1], cfg)|
  }

  lemma {:induction false} MulLe(x: int, y: int, b: nat)
    ensures x <= y ==> x * b <= y * b
  {
    if b > 0 {
      MulLe(x, y, b - 1);
    }
  }

  /** Integer division by a positive divisor: a share of at most the whole is
      at most 100 percent, and the whole is exactly 100 percent. */
  lemma PercentBounds(done: nat, total: nat)
    requires total >= 1
    ensures done <= total ==> done * 100 / total <= 100
    ensures (total * 100) / total == 100
  {
    var q := done * 100 / total;
    MulLe(done, total, 100);
    MulLe(101, q, total);
    var q' := (total * 100) / total;
    MulLe(q' + 1, 100, total);
    MulLe(101, q', total);
  }

  /** `int(done * 100 / max(1, total_queries))`, the progress bar value. */
  function Progress(done: nat, total: nat): (p: nat)
    ensures done <= total ==> p <= 100
    ensures done == total && total >= 1 ==> p == 100
  {
    if total >= 1 then PercentBounds(done, total); done * 100 / total
    else done * 100
  }

  lemma {:induction false} JobsForAt(seed: string, queries: seq<string>)
    ensures |JobsFor(seed, queries)| == |queries|
    ensures forall i :: 0 <= i < |queries| ==> JobsFor(seed, queries)[i] == Job(seed, queries[i])
  {
    if queries != [] {
      var p := queries[..|queries| - 1];
      JobsForAt(seed, p);
      var jobs := JobsFor(seed, queries);
      forall i | 0 <= i < |jobs|
        ensures jobs[i] == Job(seed, queries[i])
      {
        if i < |p| {
          assert queries[i] == p[i];
        }
      }
    }
  }

  /** The job sends one of the queries of a seed of the list. */
  predicate Planned(job: Job, seeds: seq<string>, cfg: Config, keepSeedRow: bool) {
    job.seed in seeds && job.query in Queries(job.seed, cfg, keepSeedRow)
  }

  /** Every planned job pairs a seed of the list with one of that seed's queries. */
  lemma {:induction false} PlanJobs(seeds: seq<string>, cfg: Config, keepSeedRow: bool)
    ensures forall k :: 0 <= k < |Plan(seeds, cfg, keepSeedRow)| ==>
      Planned(Plan(seeds, cfg, keepSeedRow)[k], seeds, cfg, keepSeedRow)
  {
    if seeds != [] {
      var n := |seeds|;
      var p := seeds[..n - 1];
      var seed := seeds[n - 1];
      PlanJobs(p, cfg, keepSeedRow);
      var prev := Plan(p, cfg, keepSeedRow);
      var qs := Queries(seed, cfg, keepSeedRow);
      var added := JobsFor(seed, qs);
      JobsForAt(seed, qs);
      var plan := Plan(seeds, cfg, keepSeedRow);
      assert plan == prev + added;
      forall k | 0 <= k < |plan|
        ensures Planned(plan[k], seeds, cfg, keepSeedRow)
      {
        if k < |prev| {
          assert plan[k] == prev[k];
          assert Planned(prev[k], p, cfg, keepSeedRow);
          var i :| 0 <= i < |p| && p[i] == prev[k].seed;
          assert seeds[i] == p[i];
        } else {
          assert plan[k] == added[k - |prev|] == Job(seed, qs[k - |prev|]);
        }
      }
    }
  }

  /** Every clean seed is itself sent as a query. */
  lemma {:induction false} PlanSendsSeeds(seeds: seq<string>, cfg: Config, keepSeedRow: bool)
    requires forall i :: 0 <= i < |seeds| ==> seeds[i] != [] && Text.IsStripped(seeds[i])
    ensures forall i :: 0 <= i < |seeds| ==> Job(seeds[i], seeds[i]) in Plan(seeds, cfg, keepSeedRow)
  {
    if seeds != [] {
      var n := |seeds|;
      var p := seeds[..n - 1];
      var seed := seeds[n - 1];
      assert forall i :: 0 <= i < |p| ==> p[i] == seeds[i];
      PlanSendsSeeds(p, cfg, keepSeedRow);
      var prev := Plan(p, cfg, keepSeedRow);
      var qs := Queries(seed, cfg, keepSeedRow);
      var added := JobsFor(seed, qs);
      SeedRowIsNoOp(seed, cfg, keepSeedRow);
      JobsForAt(seed, qs);
      var plan := Plan(seeds, cfg, keepSeedRow);
      assert plan == prev + added;
      forall i | 0 <= i < n
        ensures Job(seeds[i], seeds[i]) in plan
      {
        if i < n - 1 {
          assert Job(p[i], p[i]) in prev;
        } else {
          assert plan[|prev|] == added[0] == Job(seed, seed);
        }
      }
    }
  }

  /** For clean seeds the plan has exactly `total_queries` jobs, at least one
      per seed, so the progress bar ends at 100 and never goes past it. */
  lemma {:induction false} PlanSize(seeds: seq<string>, cfg: Config, keepSeedRow: bool)
    requires forall i :: 0 <= i < |seeds| ==> seeds[i] != [] && Text.IsStripped(seeds[i])
    ensures |Plan(seeds, cfg, keepSeedRow)| == TotalQueries(seeds, cfg) >= |seeds|
  {
    if seeds != [] {
      var n := |seeds|;
      var p := seeds[..n - 1];
      assert forall i :: 0 <= i < |p| ==> p[i] == seeds[i];
      PlanSize(p, cfg, keepSeedRow);
      var seed := seeds[n - 1];
      SeedRowIsNoOp(seed, cfg, keepSeedRow);
      var qs := Queries(seed, cfg, keepSeedRow);
      JobsForAt(seed, qs);
      assert |Plan(seeds, cfg, keepSeedRow)| == |Plan(p, cfg, keepSeedRow)| + |JobsFor(seed, qs)|;
    }
  }

  /** Every row is well formed and belongs to one of the jobs. */
  predicate RowsFromJobs(rows: seq<Row>, jobs: seq<Job>) {
    forall i :: 0 <= i < |rows| ==> WellFormed(rows[i]) && Job(rows[i].seed, rows[i].querySent) in jobs
  }

  /** Some row carries the job's seed and query. */
  predicate HasRow(rows: seq<Row>, job: Job) {
    exists i :: 0 <= i < |rows| && rows[i].seed == job.seed && rows[i].querySent == job.query
  }

  /** Every row of a run is well formed and belongs to a job of the run. */
  lemma {:induction false} RunRows(jobs: seq<Job>, s: Settings, network: Network)
    ensures RowsFromJobs(Run(jobs, s, network).rows, jobs)
  {
    if jobs != [] {
      var n := |jobs|;
      var p := jobs[..n - 1];
      var job := jobs[n - 1];
      RunRows(p, s, network);
      var prev, t := Run(p, s, network), Run(jobs, s, network);
      var params := BuildParams(job.query, s.loc, s.apiKey);
      var r := Retry.Retry(Attempts(network, params, prev.calls), s.maxRetries, s.backoffBase);
      var added := QueryRows(job.seed, job.query, r.outcome);
      QueryRowsShape(job.seed, job.query, r.outcome);
      assert t.rows == prev.rows + added;
      forall i | 0 <= i < |t.rows|
        ensures WellFormed(t.rows[i]) && Job(t.rows[i].seed, t.rows[i].querySent) in jobs
      {
        if i < |prev.rows| {
          assert t.rows[i] == prev.rows[i];
          var k :| 0 <= k < |p| && p[k] == Job(t.rows[i].seed, t.rows[i].querySent);
          assert jobs[k] == p[k];
        } else {
          assert t.rows[i] == added[i - |prev.rows|];
          assert Job(t.rows[i].seed, t.rows[i].querySent) == jobs[n - 1];
        }
      }
    }
  }

  /** Every job of a run gets at least one row. */
  lemma {:induction false} RunCoversJobs(jobs: seq<Job>, s: Settings, network: Network)
    ensures forall k :: 0 <= k < |jobs| ==> HasRow(Run(jobs, s, network).rows, jobs[k])
  {
    if jobs != [] {
      var n := |jobs|;
      var p := jobs[..n - 1];
      var job := jobs[n - 1];
      RunCoversJobs(p, s, network);
      var prev, t := Run(p, s, network), Run(jobs, s, network);
      var params := BuildParams(job.query, s.loc, s.apiKey);
      var r := Retry.Retry(Attempts(network, params, prev.calls), s.maxRetries, s.backoffBase);
      var added := QueryRows(job.seed, job.query, r.outcome);
      QueryRowsShape(job.seed, job.query, r.outcome);
      assert t.rows == prev.rows + added;
      forall k | 0 <= k < n
        ensures HasRow(t.rows, jobs[k])
      {
        if k < n - 1 {
          assert jobs[k] == p[k] && HasRow(prev.rows, p[k]);
          var i :| 0 <= i < |prev.rows| && prev.rows[i].seed == p[k].seed && prev.rows[i].querySent == p[k].query;
          assert t.rows[i] == prev.rows[i];
        } else {
          assert t.rows[|prev.rows|] == added[0];
        }
      }
    }
  }

  lemma MulStep(n: nat, k: nat)
    requires n >= 1
    ensures n * k == (n - 1) * k + k
  {
  }

  /** Each query on its own is sent between 1 and `maxRetries + 1` times and
      adds one sleep per call. */
  lemma RunCallsPerJob(jobs: seq<Job>, job: Job, s: Settings, network: Network)
    ensures 1 <= Run(jobs + [job], s, network).calls - Run(jobs, s, network).calls <= s.maxRetries + 1
    ensures |Run(jobs + [job], s, network).pauses| - |Run(jobs, s, network).pauses|
         == Run(jobs + [job], s, network).calls - Run(jobs, s, network).calls
  {
    RunSnoc(jobs, job, s, network);
    var params := BuildParams(job.query, s.loc, s.apiKey);
    Retry.RetryCharacterised(Attempts(network, params, Run(jobs, s, network).calls), s.maxRetries, s.backoffBase);
  }

  /** Over a run, the service is called at least once and at most
      `maxRetries + 1` times per job in total, and there is one sleep per
      call: a backoff after each failed call that is retried, the pacing delay
      after each job. */
  lemma {:induction false} RunCalls(jobs: seq<Job>, s: Settings, network: Network)
    ensures |jobs| <= Run(jobs, s, network).calls <= |jobs| * (s.maxRetries + 1)
    ensures |Run(jobs, s, network).pauses| == Run(jobs, s, network).calls
  {
    if jobs != [] {
      var n := |jobs|;
      var p := jobs[..n - 1];
      var job := jobs[n - 1];
      RunCalls(p, s, network);
      var prev := Run(p, s, network);
      var params := BuildParams(job.query, s.loc, s.apiKey);
      Retry.RetryCharacterised(Attempts(network, params, prev.calls), s.maxRetries, s.backoffBase);
      MulStep(n, s.maxRetries + 1);
    }
  }

  /** The rows of a run of the plan only name seeds of the list, each with
      one of that seed's queries. */
  lemma PlanRowsFromSeeds(seeds: seq<string>, cfg: Config, keepSeedRow: bool, s: Settings, network: Network)
    ensures forall i :: 0 <= i < |Run(Plan(seeds, cfg, keepSeedRow), s, network).rows| ==>
      Planned(Job(Run(Plan(seeds, cfg, keepSeedRow), s, network).rows[i].seed,
                  Run(Plan(seeds, cfg, keepSeedRow), s, network).rows[i].querySent),
              seeds, cfg, keepSeedRow)
  {
    var plan := Plan(seeds, cfg, keepSeedRow);
    PlanJobs(seeds, cfg, keepSeedRow);
    RunRows(plan, s, network);
    var rows := Run(plan, s, network).rows;
    assert RowsFromJobs(rows, plan);
    forall i | 0 <= i < |rows|
      ensures Planned(Job(rows[i].seed, rows[i].querySent), seeds, cfg, keepSeedRow)
    {
      var k :| 0 <= k < |plan| && plan[k] == Job(rows[i].seed, rows[i].querySent);
      assert Planned(plan[k], seeds, cfg, keepSeedRow);
    }
  }

  /** Every clean seed has at least one row with the seed itself as query. */
  lemma PlanRowsCoverSeeds(seeds: seq<string>, cfg: Config, keepSeedRow: bool, s: Settings, network: Network)
    requires forall i :: 0 <= i < |seeds| ==> seeds[i] != [] && Text.IsStripped(seeds[i])
    ensures forall i :: 0 <= i < |seeds| ==>
      HasRow(Run(Plan(seeds, cfg, keepSeedRow), s, network).rows, Job(seeds[i], seeds[i]))
  {
    var plan := Plan(seeds, cfg, keepSeedRow);
    PlanSendsSeeds(seeds, cfg, keepSeedRow);
    RunCoversJobs(plan, s, network);
    var rows := Run(plan, s, network).rows;
    forall i | 0 <= i < |seeds|
      ensures HasRow(rows, Job(seeds[i], seeds[i]))
    {
      var k :| 0 <= k < |plan| && plan[k] == Job(seeds[i], seeds[i]);
      assert HasRow(rows, plan[k]);
    }
  }

  /** `for pos, text in suggestions: rows.append(...)`. */
  method AppendSuggestionRows(rows: seq<Row>, seed: string, q: string, values: seq<(nat, string)>)
    returns (out: seq<Row>)
    ensures out == rows + SuggestionRows(seed, q, values)
  {
    out := rows;
    for k := 0 to |values|
      invariant out == rows + SuggestionRows(seed, q, values[..k])
    {
      assert values[..k + 1][..k] == values[..k];
      out := out + [Row(seed, q, Some(values[k].0), Some(values[k].1), None)];
    }
    assert values[..|values|] == values;
  }

  /** The body of the inner loop for one query: the call through
      `with_retry`, the rows it adds, and the pacing sleep. */
  method SendQuery(t: Trace, job: Job, s: Settings, network: Network) returns (next: Trace)
    ensures next == Step(t, job, s, network)
  {
    var rows, calls, pauses := t.rows, t.calls, t.pauses;
    var params := BuildParams(job.query, s.loc, s.apiKey);
    var outcome, n, sleeps := Retry.WithRetry(Attempts(network, params, calls), s.maxRetries, s.backoffBase);
    match outcome {
      case Success(resp) =>
        var values := ExtractSuggestions(resp);
        if values == [] {
          rows := rows + [Row(job.seed, job.query, None, None, None)];
        } else {
          rows := AppendSuggestionRows(rows, job.seed, job.query, values);
        }
      case Failure(e) =>
        rows := rows + [Row(job.seed, job.query, None, None, Some(e))];
    }
    calls := calls + n;
    pauses := pauses + Sleeps(sleeps) + [Pace];
    next := Trace(rows, calls, pauses);
  }

  /** Planning one more seed appends that seed's jobs. */
  lemma PlanPrefix(seeds: seq<string>, i: nat, cfg: Config, keepSeedRow: bool)
    requires i < |seeds|
    ensures Plan(seeds[..i + 1], cfg, keepSeedRow)
         == Plan(seeds[..i], cfg, keepSeedRow) + JobsFor(seeds[i], Queries(seeds[i], cfg, keepSeedRow))
  {
    assert seeds[..i + 1][..i] == seeds[..i];
  }

  /** Sending the next query of a seed extends the jobs sent by that one job. */
  lemma SentSnoc(planned: seq<Job>, seed: string, queries: seq<string>, qi: nat, s: Settings, network: Network)
    requires qi < |queries|
    ensures planned + JobsFor(seed, queries[..qi + 1]) == planned + JobsFor(seed, queries[..qi]) + [Job(seed, queries[qi])]
    ensures Run(planned + JobsFor(seed, queries[..qi + 1]), s, network)
         == Step(Run(planned + JobsFor(seed, queries[..qi]), s, network), Job(seed, queries[qi]), s, network)
  {
    assert queries[..qi + 1][..qi] == queries[..qi];
    RunSnoc(planned + JobsFor(seed, queries[..qi]), Job(seed, queries[qi]), s, network);
  }

  /** The inner loop over the queries of one seed, after the jobs `planned`
      were sent; `done` and the progress value advance with every query. */
  method SendSeedQueries(t: Trace, seed: string, queries: seq<string>, s: Settings, network: Network,
                         ghost planned: seq<Job>, done: nat, total: nat, progress: nat)
    returns (t': Trace, done': nat, progress': nat)
    requires t == Run(planned, s, network) && done == |planned| && progress == Progress(done, total)
    ensures t' == Run(planned + JobsFor(seed, queries), s, network)
    ensures done' == |planned + JobsFor(seed, queries)| && progress' == Progress(done', total)
  {
    t', done', progress' := t, done, progress;
    assert planned + JobsFor(seed, queries[..0]) == planned;
    for qi := 0 to |queries|
      invariant t' == Run(planned + JobsFor(seed, queries[..qi]), s, network)
      invariant done' == |planned + JobsFor(seed, queries[..qi])|
      invariant progress' == Progress(done', total)
    {
      var q := queries[qi];
      SentSnoc(planned, seed, queries, qi, s, network);
      t' := SendQuery(t', Job(seed, q), s, network);
      done' := done' + 1;
      progress' := Progress(done', total);
    }
    assert queries[..|queries|] == queries;
  }

  /** The outer loop over the seeds. */
  method SendSeeds(seeds: seq<string>, cfg: Config, keepSeedRow: bool, s: Settings, network: Network, total: nat)
    returns (t: Trace, done: nat, progress: nat)
    ensures t == Run(Plan(seeds, cfg, keepSeedRow), s, network)
    ensures done == |Plan(seeds, cfg, keepSeedRow)| && progress == Progress(done, total)
  {
    t, done, progress := Trace([], 0, []), 0, 0;
    for si := 0 to |seeds|
      invariant t == Run(Plan(seeds[..si], cfg, keepSeedRow), s, network)
      invariant done == |Plan(seeds[..si], cfg, keepSeedRow)|
      invariant progress == Progress(done, total)
    {
      var seed := seeds[si];
      var queries := ExpandQueries(seed, cfg);
      if keepSeedRow && seed !in queries {
        queries := [seed] + queries;
      }
      assert queries == Queries(seed, cfg, keepSeedRow);
      PlanPrefix(seeds, si, cfg, keepSeedRow);
      t, done, progress := SendSeedQueries(t, seed, queries, s, network,
                                           Plan(seeds[..si], cfg, keepSeedRow), done, total, progress);
    }
    assert seeds[..|seeds|] == seeds;
  }

  /** The "Run autocomplete" handler: refuse to start without a key or
      without seeds, else send every planned query in order. Returns the run
      and the last progress value. */
  method RunBatch(s: Settings, seedsRaw: string, cfg: Config, keepSeedRow: bool, network: Network)
    returns (r: Result<Trace, BatchError>, progress: nat)
    ensures s.apiKey == [] ==> r == Failure(MissingKey)
    ensures s.apiKey != [] && NormaliseSeeds(seedsRaw) == [] ==> r == Failure(NoSeeds)
    ensures s.apiKey != [] && NormaliseSeeds(seedsRaw) != [] ==>
      r == Success(Run(Plan(NormaliseSeeds(seedsRaw), cfg, keepSeedRow), s, network)) && progress == 100
  {
    progress := 0;
    if s.apiKey == [] {
      return Failure(MissingKey), progress;
    }
    var seeds := NormaliseSeeds(seedsRaw);
    if seeds == [] {
      return Failure(NoSeeds), progress;
    }
    var total := TotalQueries(seeds, cfg);
    PlanSize(seeds, cfg, keepSeedRow);
    var t, done;
    t, done, progress := SendSeeds(seeds, cfg, keepSeedRow, s, network, total);
    return Success(t), progress;
  }
}
