/** `ci_summary_gate.py`: the verdict on one snapshot of a workflow's jobs, and how it evolves. */
module CiSummary {
  import opened Ordering

  /** The `run_attempt` field: a number, a string with what `int` makes of it, or anything else. */
  datatype RawAttempt = Number(n: int) | Text(parsed: Option<int>) | Unusable

  /** One row of the jobs payload; an absent or falsy name is the empty string. */
  datatype RawJob = RawJob(name: string, status: string, conclusion: Option<string>, attempt: RawAttempt) {
    function Attempt(): int {
      match attempt
      case Number(n) => n
      case Text(Some(n)) => n
      case _ => 1
    }
  }

  datatype JobState = JobState(name: string, status: string, conclusion: Option<string>, runAttempt: int) {
    predicate Completed() {
      status == "completed"
    }

    predicate Good() {
      conclusion == Some("success") || conclusion == Some("skipped")
    }
  }

  // ---- Authoritative rows ----

  /** Named rows, of one attempt when it is given, in payload order. */
  function NamedRows(jobs: seq<RawJob>, runAttempt: Option<int>): seq<JobState> {
    if jobs == [] then []
    else
      var j := jobs[|jobs| - 1];
      NamedRows(jobs[..|jobs| - 1], runAttempt) +
      if j.name == "" || (runAttempt.Some? && j.Attempt() != runAttempt.value) then []
      else [JobState(j.name, j.status, j.conclusion, j.Attempt())]
  }

  /** The largest attempt seen for a name, starting from 0. */
  function LatestAttempt(states: seq<JobState>, name: string): int {
    if states == [] then 0
    else
      var last, before := states[|states| - 1], LatestAttempt(states[..|states| - 1], name);
      if last.name == name && last.runAttempt > before then last.runAttempt else before
  }

  function OfLatestAttempt(states: seq<JobState>, all: seq<JobState>): seq<JobState> {
    if states == [] then []
    else
      var last := states[|states| - 1];
      OfLatestAttempt(states[..|states| - 1], all) +
      if last.runAttempt == LatestAttempt(all, last.name) then [last] else []
  }

  function Observed(jobs: seq<RawJob>, runAttempt: Option<int>): seq<JobState> {
    var rows := NamedRows(jobs, runAttempt);
    if runAttempt.Some? then rows else OfLatestAttempt(rows, rows)
  }

  lemma {:induction false} LatestAttemptIsMax(states: seq<JobState>, name: string)
    ensures LatestAttempt(states, name) >= 0
    ensures forall r :: r in states && r.name == name ==> r.runAttempt <= LatestAttempt(states, name)
    ensures LatestAttempt(states, name) > 0 ==>
              exists r :: r in states && r.name == name && r.runAttempt == LatestAttempt(states, name)
  {
    if states != [] {
      LatestAttemptIsMax(states[..|states| - 1], name);
      assert states == states[..|states| - 1] + [states[|states| - 1]];
    }
  }

  lemma {:induction false} OfLatestAttemptMember(states: seq<JobState>, all: seq<JobState>, r: JobState)
    ensures r in OfLatestAttempt(states, all) <==> r in states && r.runAttempt == LatestAttempt(all, r.name)
  {
    if states != [] {
      OfLatestAttemptMember(states[..|states| - 1], all, r);
      assert states == states[..|states| - 1] + [states[|states| - 1]];
    }
  }

  /** Without a given attempt, a row counts exactly when no row of its name has a later attempt; rows
      with a negative attempt never count. */
  lemma ObservedIsLatest(jobs: seq<RawJob>, r: JobState)
    ensures r in Observed(jobs, None) <==>
            && r in NamedRows(jobs, None) && r.runAttempt >= 0
            && forall q :: q in NamedRows(jobs, None) && q.name == r.name ==> q.runAttempt <= r.runAttempt
  {
    var rows := NamedRows(jobs, None);
    OfLatestAttemptMember(rows, rows, r);
    LatestAttemptIsMax(rows, r.name);
  }

  // ---- The same rows, by position in the payload ----

  /** What `int` makes of the field: the number, the number a string holds, and 1 for all else. */
  ghost predicate AttemptIs(j: RawJob, n: int) {
    match j.attempt
    case Number(m) => n == m
    case Text(parsed) => if parsed.Some? then n == parsed.value else n == 1
    case Unusable => n == 1
  }

  ghost predicate LaterAttempt(jobs: seq<RawJob>, name: string, n: int) {
    exists j: nat, m: int :: j < |jobs| && jobs[j].name == name && AttemptIs(jobs[j], m) && m > n
  }

  /** The job at `i` counts: it has a name, and its attempt is the given one or, when none is given, not
      negative and the latest of its name. */
  ghost predicate Counted(jobs: seq<RawJob>, runAttempt: Option<int>, i: nat) {
    && i < |jobs| && jobs[i].name != ""
    && match runAttempt
       case Some(n) => AttemptIs(jobs[i], n)
       case None => exists n :: n >= 0 && AttemptIs(jobs[i], n) && !LaterAttempt(jobs, jobs[i].name, n)
  }

  /** The last job of the name that counts. */
  ghost predicate LastCounted(jobs: seq<RawJob>, runAttempt: Option<int>, name: string, i: nat) {
    && Counted(jobs, runAttempt, i) && jobs[i].name == name
    && forall j: nat :: i < j && Counted(jobs, runAttempt, j) ==> jobs[j].name != name
  }

  function RowOf(j: RawJob): JobState {
    JobState(j.name, j.status, j.conclusion, j.Attempt())
  }

  lemma AttemptIff(j: RawJob, n: int)
    ensures AttemptIs(j, n) <==> n == j.Attempt()
  {
  }

  ghost predicate HasRow(jobs: seq<RawJob>, r: JobState, j: nat) {
    j < |jobs| && jobs[j].name != "" && r == RowOf(jobs[j])
  }

  lemma {:induction false} NamedRowsMember(jobs: seq<RawJob>, r: JobState)
    ensures r in NamedRows(jobs, None) <==> exists j: nat :: HasRow(jobs, r, j)
  {
    if jobs != [] {
      var n := |jobs| - 1;
      NamedRowsMember(jobs[..n], r);
      forall j: nat ensures HasRow(jobs, r, j) <==> HasRow(jobs[..n], r, j) || (j == n && HasRow(jobs, r, n)) {
        assert j < n ==> jobs[..n][j] == jobs[j];
      }
      assert r in NamedRows(jobs, None) <==> r in NamedRows(jobs[..n], None) || HasRow(jobs, r, n);
    }
  }

  lemma LaterIff(jobs: seq<RawJob>, i: nat)
    requires i < |jobs| && jobs[i].name != ""
    ensures var all, row := NamedRows(jobs, None), RowOf(jobs[i]);
      row.runAttempt == LatestAttempt(all, row.name) <==>
      row.runAttempt >= 0 && !LaterAttempt(jobs, jobs[i].name, row.runAttempt)
  {
    var all, row := NamedRows(jobs, None), RowOf(jobs[i]);
    NamedRowsMember(jobs, row);
    assert HasRow(jobs, row, i);
    ObservedIsLatest(jobs, row);
    OfLatestAttemptMember(all, all, row);
    if LaterAttempt(jobs, row.name, row.runAttempt) {
      var j: nat, m: int :| j < |jobs| && jobs[j].name == row.name && AttemptIs(jobs[j], m) && m > row.runAttempt;
      AttemptIff(jobs[j], m);
      NamedRowsMember(jobs, RowOf(jobs[j]));
      assert HasRow(jobs, RowOf(jobs[j]), j);
    }
    forall q | q in all && q.name == row.name && q.runAttempt > row.runAttempt
      ensures LaterAttempt(jobs, row.name, row.runAttempt)
    {
      NamedRowsMember(jobs, q);
      var j: nat :| HasRow(jobs, q, j);
      AttemptIff(jobs[j], q.runAttempt);
    }
  }

  /** The authoritative rows among the first `n` jobs. */
  function RowsUpTo(jobs: seq<RawJob>, runAttempt: Option<int>, n: nat): seq<JobState>
    requires n <= |jobs|
  {
    var rows := NamedRows(jobs[..n], runAttempt);
    if runAttempt.Some? then rows else OfLatestAttempt(rows, NamedRows(jobs, None))
  }

  lemma CountedWithoutAttempt(jobs: seq<RawJob>, i: nat)
    requires i < |jobs| && jobs[i].name != ""
    ensures Counted(jobs, None, i) <==>
            RowOf(jobs[i]).runAttempt == LatestAttempt(NamedRows(jobs, None), jobs[i].name)
  {
    LaterIff(jobs, i);
    forall n ensures AttemptIs(jobs[i], n) <==> n == jobs[i].Attempt() {
      AttemptIff(jobs[i], n);
    }
  }

  lemma RowsStep(jobs: seq<RawJob>, runAttempt: Option<int>, n: nat)
    requires n < |jobs|
    ensures RowsUpTo(jobs, runAttempt, n + 1) ==
            RowsUpTo(jobs, runAttempt, n) + if Counted(jobs, runAttempt, n) then [RowOf(jobs[n])] else []
  {
    var before, after := NamedRows(jobs[..n], runAttempt), NamedRows(jobs[..n + 1], runAttempt);
    assert jobs[..n + 1][..n] == jobs[..n];
    if runAttempt.Some? {
      AttemptIff(jobs[n], runAttempt.value);
    } else if jobs[n].name == "" {
      assert after == before;
    } else {
      CountedWithoutAttempt(jobs, n);
      assert after == before + [RowOf(jobs[n])];
      assert after[..|before|] == before;
    }
  }

  // ---- Rows collected one by one ----

  /** `rows(n)` holds the rows `row(i)` of the positions `i` below `n` that count. */
  ghost predicate Collects(rows: nat -> seq<JobState>, counts: nat -> bool, row: nat -> JobState, n: nat) {
    rows(0) == [] && forall k: nat :: k < n ==> CollectsAt(rows, counts, row, k)
  }

  ghost predicate CollectsAt(rows: nat -> seq<JobState>, counts: nat -> bool, row: nat -> JobState, k: nat) {
    rows(k + 1) == rows(k) + if counts(k) then [row(k)] else []
  }

  lemma {:induction false} CollectedMember(
      rows: nat -> seq<JobState>, counts: nat -> bool, row: nat -> JobState, n: nat, r: JobState)
    requires Collects(rows, counts, row, n)
    ensures r in rows(n) <==> exists i: nat :: i < n && counts(i) && r == row(i)
  {
    if n > 0 {
      CollectedMember(rows, counts, row, n - 1, r);
      assert CollectsAt(rows, counts, row, n - 1);
    }
  }

  ghost predicate LastOf(counts: nat -> bool, row: nat -> JobState, n: nat, name: string, i: nat) {
    && i < n && counts(i) && row(i).name == name
    && forall j: nat :: i < j < n && counts(j) ==> row(j).name != name
  }

  lemma LatestRowSnoc(rows: seq<JobState>, r: JobState, name: string)
    ensures LatestRow(rows + [r], name) == if r.name == name then Some(r) else LatestRow(rows, name)
  {
    assert (rows + [r])[..|rows|] == rows;
  }

  lemma {:induction false} CollectedLatest(
      rows: nat -> seq<JobState>, counts: nat -> bool, row: nat -> JobState, n: nat, name: string, i: nat)
    requires Collects(rows, counts, row, n) && LastOf(counts, row, n, name, i)
    ensures LatestRow(rows(n), name) == Some(row(i))
  {
    assert CollectsAt(rows, counts, row, n - 1);
    if counts(n - 1) {
      LatestRowSnoc(rows(n - 1), row(n - 1), name);
    }
    if i < n - 1 {
      assert rows(n - 1) + [] == rows(n - 1);
      CollectedLatest(rows, counts, row, n - 1, name, i);
    }
  }

  lemma {:induction false} LastExists(counts: nat -> bool, row: nat -> JobState, n: nat, name: string, k: nat)
    returns (i: nat)
    requires k < n && counts(k) && row(k).name == name
    ensures LastOf(counts, row, n, name, i)
  {
    if counts(n - 1) && row(n - 1).name == name {
      i := n - 1;
    } else {
      i := LastExists(counts, row, n - 1, name, k);
    }
  }

  /** The latest row of a name is that of the last position of the name that counts. */
  lemma CollectedLatestIff(rows: nat -> seq<JobState>, counts: nat -> bool, row: nat -> JobState, n: nat, name: string,
                           r: JobState)
    requires Collects(rows, counts, row, n)
    ensures LatestRow(rows(n), name) == Some(r) <==> exists i: nat :: LastOf(counts, row, n, name, i) && r == row(i)
  {
    if i: nat :| LastOf(counts, row, n, name, i) && r == row(i) {
      CollectedLatest(rows, counts, row, n, name, i);
    }
    if LatestRow(rows(n), name) == Some(r) {
      LatestRowFound(rows(n), name);
      CollectedMember(rows, counts, row, n, r);
      var k: nat :| k < n && counts(k) && r == row(k);
      var i := LastExists(counts, row, n, name, k);
      CollectedLatest(rows, counts, row, n, name, i);
    }
  }

  ghost function RowsBelow(jobs: seq<RawJob>, runAttempt: Option<int>): nat -> seq<JobState> {
    (n: nat) => if n <= |jobs| then RowsUpTo(jobs, runAttempt, n) else []
  }

  ghost function CountedAt(jobs: seq<RawJob>, runAttempt: Option<int>): nat -> bool {
    (i: nat) => Counted(jobs, runAttempt, i)
  }

  function RowAt(jobs: seq<RawJob>): nat -> JobState {
    (i: nat) => if i < |jobs| then RowOf(jobs[i]) else JobState("", "", None, 0)
  }

  lemma RowsCollected(jobs: seq<RawJob>, runAttempt: Option<int>)
    ensures Collects(RowsBelow(jobs, runAttempt), CountedAt(jobs, runAttempt), RowAt(jobs), |jobs|)
    ensures RowsBelow(jobs, runAttempt)(|jobs|) == Observed(jobs, runAttempt)
  {
    assert jobs[..|jobs|] == jobs;
    forall k: nat | k < |jobs|
      ensures CollectsAt(RowsBelow(jobs, runAttempt), CountedAt(jobs, runAttempt), RowAt(jobs), k)
    {
      RowsStep(jobs, runAttempt, k);
    }
  }

  /** A row is authoritative exactly when it is that of a job that counts. */
  lemma ObservedMember(jobs: seq<RawJob>, runAttempt: Option<int>, r: JobState)
    ensures r in Observed(jobs, runAttempt) <==> exists i: nat :: Counted(jobs, runAttempt, i) && r == RowOf(jobs[i])
  {
    RowsCollected(jobs, runAttempt);
    CollectedMember(RowsBelow(jobs, runAttempt), CountedAt(jobs, runAttempt), RowAt(jobs), |jobs|, r);
    if i: nat :| Counted(jobs, runAttempt, i) && r == RowOf(jobs[i]) {
      assert CountedAt(jobs, runAttempt)(i) && r == RowAt(jobs)(i);
    }
  }

  lemma LastIff(jobs: seq<RawJob>, runAttempt: Option<int>, name: string, i: nat)
    ensures LastOf(CountedAt(jobs, runAttempt), RowAt(jobs), |jobs|, name, i) <==>
            LastCounted(jobs, runAttempt, name, i)
  {
    forall j: nat ensures CountedAt(jobs, runAttempt)(j) <==> Counted(jobs, runAttempt, j) {
    }
  }

  /** The latest row of a name is that of its last job that counts. */
  lemma LatestMember(jobs: seq<RawJob>, runAttempt: Option<int>, name: string, r: JobState)
    ensures LatestRow(Observed(jobs, runAttempt), name) == Some(r) <==>
            exists i: nat :: LastCounted(jobs, runAttempt, name, i) && r == RowOf(jobs[i])
  {
    RowsCollected(jobs, runAttempt);
    CollectedLatestIff(RowsBelow(jobs, runAttempt), CountedAt(jobs, runAttempt), RowAt(jobs), |jobs|, name, r);
    forall i: nat ensures LastOf(CountedAt(jobs, runAttempt), RowAt(jobs), |jobs|, name, i) <==>
                          LastCounted(jobs, runAttempt, name, i) {
      LastIff(jobs, runAttempt, name, i);
    }
  }

  /** `_job_states`. */
  method JobStates(jobs: seq<RawJob>, runAttempt: Option<int>) returns (states: seq<JobState>)
    ensures states == Observed(jobs, runAttempt)
  {
    states := [];
    for i := 0 to |jobs|
      invariant states == NamedRows(jobs[..i], runAttempt)
    {
      assert jobs[..i + 1][..i] == jobs[..i];
      var attempt := jobs[i].Attempt();
      if jobs[i].name != "" && (runAttempt.None? || attempt == runAttempt.value) {
        states := states + [JobState(jobs[i].name, jobs[i].status, jobs[i].conclusion, attempt)];
      }
    }
    assert jobs[..|jobs|] == jobs;
    if runAttempt.None? {
      states := KeepLatest(states);
    }
  }

  /** `latest_attempt_by_name` and the final filter. */
  method KeepLatest(states: seq<JobState>) returns (kept: seq<JobState>)
    ensures kept == OfLatestAttempt(states, states)
  {
    var latest: map<string, int> := map[];
    for i := 0 to |states|
      invariant forall n :: (if n in latest then latest[n] else 0) == LatestAttempt(states[..i], n)
      invariant forall j :: 0 <= j < i ==> states[j].name in latest
    {
      assert states[..i + 1][..i] == states[..i];
      var seen := if states[i].name in latest then latest[states[i].name] else 0;
      latest := latest[states[i].name := if states[i].runAttempt > seen then states[i].runAttempt else seen];
    }
    assert states[..|states|] == states;
    kept := [];
    for i := 0 to |states|
      invariant kept == OfLatestAttempt(states[..i], states)
    {
      assert states[..i + 1][..i] == states[..i];
      if states[i].runAttempt == latest[states[i].name] {
        kept := kept + [states[i]];
      }
    }
  }

  /** The last row of each name. */
  function LatestRow(rows: seq<JobState>, name: string): Option<JobState> {
    if rows == [] then None
    else if rows[|rows| - 1].name == name then Some(rows[|rows| - 1])
    else LatestRow(rows[..|rows| - 1], name)
  }

  /** The dictionary holds the latest row of each name. */
  ghost predicate HoldsLatest(latest: map<string, JobState>, rows: seq<JobState>) {
    forall n :: (if n in latest then Some(latest[n]) else None) == LatestRow(rows, n)
  }

  /** `dedup_latest`. */
  method DedupLatest(jobs: seq<RawJob>, runAttempt: Option<int>) returns (latest: map<string, JobState>)
    ensures HoldsLatest(latest, Observed(jobs, runAttempt))
  {
    var states := JobStates(jobs, runAttempt);
    latest := map[];
    for i := 0 to |states|
      invariant HoldsLatest(latest, states[..i])
    {
      assert states[..i + 1][..i] == states[..i];
      latest := latest[states[i].name := states[i]];
    }
    assert states[..|states|] == states;
  }

  /** A row of another attempt changes nothing, wherever it stands in the payload. */
  lemma {:induction false} OtherAttemptsIgnored(before: seq<RawJob>, j: RawJob, after: seq<RawJob>, attempt: int)
    requires j.Attempt() != attempt
    ensures Observed(before + [j] + after, Some(attempt)) == Observed(before + after, Some(attempt))
  {
    if after == [] {
      assert (before + [j] + after)[..|before|] == before && before + after == before;
    } else {
      var init, last := after[..|after| - 1], after[|after| - 1];
      OtherAttemptsIgnored(before, j, init, attempt);
      assert (before + [j] + after)[..|before| + |after|] == before + [j] + init;
      assert (before + after)[..|before| + |after| - 1] == before + init;
    }
  }

  // ---- The verdict ----

  datatype Config = Config(selfName: string, gates: seq<string>, allowlist: set<string>, validators: seq<string>)

  datatype Verdict = Success | Failure | Pending

  predicate Swept(cfg: Config, row: JobState) {
    row.name != cfg.selfName && row.name !in cfg.allowlist && row.Completed() && !row.Good()
  }

  predicate FailsStrictly(row: Option<JobState>) {
    row.Some? && row.value.Completed() && row.value.conclusion != Some("success")
  }

  predicate NotFinished(row: Option<JobState>) {
    row.None? || !row.value.Completed()
  }

  /** The default-deny sweep, or a required validator that finished without success. */
  ghost predicate Fails(rows: seq<JobState>, cfg: Config) {
    || (exists r :: r in rows && Swept(cfg, r))
    || (exists v :: v in cfg.validators && FailsStrictly(LatestRow(rows, v)))
  }

  /** Some gate or required validator is missing or still running. */
  ghost predicate Unfinished(rows: seq<JobState>, cfg: Config) {
    exists n :: (n in cfg.gates || n in cfg.validators) && NotFinished(LatestRow(rows, n))
  }

  ghost function VerdictOn(rows: seq<JobState>, cfg: Config): Verdict {
    if Fails(rows, cfg) then Failure else if Unfinished(rows, cfg) then Pending else Success
  }

  /** The names in `names` whose latest row satisfies `bad`, in list order. */
  function Selected(latest: map<string, JobState>, names: seq<string>, bad: Option<JobState> -> bool): seq<string> {
    if names == [] then []
    else
      var last := names[|names| - 1];
      Selected(latest, names[..|names| - 1], bad) +
      if bad(if last in latest then Some(latest[last]) else None) then [last] else []
  }

  /** The names whose latest row satisfies `bad`, in order. */
  ghost function NamesWhere(names: seq<string>, rows: seq<JobState>, bad: Option<JobState> -> bool): seq<string> {
    Filter(names, n => bad(LatestRow(rows, n)))
  }

  lemma NamesWhereIs(names: seq<string>, rows: seq<JobState>, bad: Option<JobState> -> bool, p: string -> bool)
    requires forall n :: p(n) <==> bad(LatestRow(rows, n))
    ensures NamesWhere(names, rows, bad) == Filter(names, p)
  {
    FilterSame(names, n => bad(LatestRow(rows, n)), p);
  }

  lemma NoneWhere(names: seq<string>, rows: seq<JobState>, bad: Option<JobState> -> bool)
    ensures NamesWhere(names, rows, bad) == [] <==> forall n :: n in names ==> !bad(LatestRow(rows, n))
  {
    FilterEmpty(names, n => bad(LatestRow(rows, n)));
  }

  lemma {:induction false} SelectedIsFilter(latest: map<string, JobState>, rows: seq<JobState>, names: seq<string>,
                                            bad: Option<JobState> -> bool)
    requires HoldsLatest(latest, rows)
    ensures Selected(latest, names, bad) == NamesWhere(names, rows, bad)
  {
    if names != [] {
      SelectedIsFilter(latest, rows, names[..|names| - 1], bad);
    }
  }

  // ---- The verdict, told by the jobs that count ----

  /** The job completed with neither success nor skip, and is neither the poller nor allowlisted. */
  ghost predicate BadJob(cfg: Config, j: RawJob) {
    && j.name != cfg.selfName && j.name !in cfg.allowlist && j.status == "completed"
    && j.conclusion != Some("success") && j.conclusion != Some("skipped")
  }

  /** The name is that of some job that counts and is bad. */
  ghost predicate SweptName(jobs: seq<RawJob>, runAttempt: Option<int>, cfg: Config, name: string) {
    exists i: nat :: Counted(jobs, runAttempt, i) && BadJob(cfg, jobs[i]) && jobs[i].name == name
  }

  /** The last job of the name that counts completed without success. */
  ghost predicate NotStrict(jobs: seq<RawJob>, runAttempt: Option<int>, name: string) {
    exists i: nat :: LastCounted(jobs, runAttempt, name, i) && jobs[i].status == "completed"
                     && jobs[i].conclusion != Some("success")
  }

  /** No job of the name counts, or the last one that does has not completed. */
  ghost predicate Waiting(jobs: seq<RawJob>, runAttempt: Option<int>, name: string) {
    forall i: nat :: LastCounted(jobs, runAttempt, name, i) ==> jobs[i].status != "completed"
  }

  /** Failure for a bad job or a required validator that did not succeed, else pending for a gate or
      required validator that is waited for, else success. */
  ghost predicate IsVerdict(jobs: seq<RawJob>, runAttempt: Option<int>, cfg: Config, verdict: Verdict) {
    var fails := (exists n :: SweptName(jobs, runAttempt, cfg, n))
                 || exists v :: v in cfg.validators && NotStrict(jobs, runAttempt, v);
    var waits := exists n :: (n in cfg.gates || n in cfg.validators) && Waiting(jobs, runAttempt, n);
    match verdict
    case Failure => fails
    case Pending => !fails && waits
    case Success => !fails && !waits
  }

  lemma SweptIff(jobs: seq<RawJob>, runAttempt: Option<int>, cfg: Config, name: string)
    ensures SweptName(jobs, runAttempt, cfg, name) <==>
            exists r :: r in Observed(jobs, runAttempt) && Swept(cfg, r) && r.name == name
  {
    if i: nat :| Counted(jobs, runAttempt, i) && BadJob(cfg, jobs[i]) && jobs[i].name == name {
      ObservedMember(jobs, runAttempt, RowOf(jobs[i]));
    }
    if r :| r in Observed(jobs, runAttempt) && Swept(cfg, r) && r.name == name {
      ObservedMember(jobs, runAttempt, r);
    }
  }

  lemma StrictIff(jobs: seq<RawJob>, runAttempt: Option<int>, name: string)
    ensures NotStrict(jobs, runAttempt, name) <==> FailsStrictly(LatestRow(Observed(jobs, runAttempt), name))
    ensures Waiting(jobs, runAttempt, name) <==> NotFinished(LatestRow(Observed(jobs, runAttempt), name))
  {
    var row := LatestRow(Observed(jobs, runAttempt), name);
    if row.Some? {
      LatestMember(jobs, runAttempt, name, row.value);
    }
    forall i: nat | LastCounted(jobs, runAttempt, name, i) ensures row == Some(RowOf(jobs[i])) {
      LatestMember(jobs, runAttempt, name, RowOf(jobs[i]));
    }
  }

  lemma VerdictIff(jobs: seq<RawJob>, runAttempt: Option<int>, cfg: Config)
    ensures IsVerdict(jobs, runAttempt, cfg, VerdictOn(Observed(jobs, runAttempt), cfg))
  {
    forall n ensures SweptName(jobs, runAttempt, cfg, n) <==>
                     exists r :: r in Observed(jobs, runAttempt) && Swept(cfg, r) && r.name == n {
      SweptIff(jobs, runAttempt, cfg, n);
    }
    forall n
      ensures NotStrict(jobs, runAttempt, n) <==> FailsStrictly(LatestRow(Observed(jobs, runAttempt), n))
      ensures Waiting(jobs, runAttempt, n) <==> NotFinished(LatestRow(Observed(jobs, runAttempt), n))
    {
      StrictIff(jobs, runAttempt, n);
    }
    if r :| r in Observed(jobs, runAttempt) && Swept(cfg, r) {
      assert SweptName(jobs, runAttempt, cfg, r.name);
    }
  }

  /** `evaluate`: the verdict and the four lists its report prints. */
  method Evaluate(jobs: seq<RawJob>, runAttempt: Option<int>, cfg: Config)
    returns (verdict: Verdict, sweepFailures: seq<string>, validatorNotSuccess: seq<string>,
             gatePending: seq<string>, validatorPending: seq<string>)
    ensures IsVerdict(jobs, runAttempt, cfg, verdict)
    ensures StrictlySorted(sweepFailures) && forall n :: n in sweepFailures <==> SweptName(jobs, runAttempt, cfg, n)
    ensures validatorNotSuccess == Sort(Filter(cfg.validators, n => NotStrict(jobs, runAttempt, n)))
    ensures gatePending == Filter(cfg.gates, n => Waiting(jobs, runAttempt, n))
    ensures validatorPending == Filter(cfg.validators, n => Waiting(jobs, runAttempt, n))
  {
    verdict, sweepFailures, validatorNotSuccess, gatePending, validatorPending := EvaluateRows(jobs, runAttempt, cfg);
    VerdictIff(jobs, runAttempt, cfg);
    forall n ensures n in sweepFailures <==> SweptName(jobs, runAttempt, cfg, n) {
      SweptIff(jobs, runAttempt, cfg, n);
      assert n in sweepFailures <==> n in Elements(sweepFailures);
    }
    forall n
      ensures NotStrict(jobs, runAttempt, n) <==> FailsStrictly(LatestRow(Observed(jobs, runAttempt), n))
      ensures Waiting(jobs, runAttempt, n) <==> NotFinished(LatestRow(Observed(jobs, runAttempt), n))
    {
      StrictIff(jobs, runAttempt, n);
    }
    ghost var rows := Observed(jobs, runAttempt);
    NamesWhereIs(cfg.validators, rows, FailsStrictly, n => NotStrict(jobs, runAttempt, n));
    NamesWhereIs(cfg.gates, rows, NotFinished, n => Waiting(jobs, runAttempt, n));
    NamesWhereIs(cfg.validators, rows, NotFinished, n => Waiting(jobs, runAttempt, n));
  }

  /** The same in terms of the rows that `_job_states` keeps. */
  method EvaluateRows(jobs: seq<RawJob>, runAttempt: Option<int>, cfg: Config)
    returns (verdict: Verdict, sweepFailures: seq<string>, validatorNotSuccess: seq<string>,
             gatePending: seq<string>, validatorPending: seq<string>)
    ensures verdict == VerdictOn(Observed(jobs, runAttempt), cfg)
    ensures sweepFailures == SortSet(set r | r in Observed(jobs, runAttempt) && Swept(cfg, r) :: r.name)
    ensures var rows := Observed(jobs, runAttempt);
      && validatorNotSuccess == Sort(NamesWhere(cfg.validators, rows, FailsStrictly))
      && gatePending == NamesWhere(cfg.gates, rows, NotFinished)
      && validatorPending == NamesWhere(cfg.validators, rows, NotFinished)
  {
    var latest := DedupLatest(jobs, runAttempt);
    var observed := JobStates(jobs, runAttempt);
    var swept := set r | r in observed && Swept(cfg, r) :: r.name;
    sweepFailures := SortedSet(swept);
    SelectedIsFilter(latest, observed, cfg.validators, FailsStrictly);
    SelectedIsFilter(latest, observed, cfg.gates, NotFinished);
    SelectedIsFilter(latest, observed, cfg.validators, NotFinished);
    validatorNotSuccess := Sort(Selected(latest, cfg.validators, FailsStrictly));
    validatorPending := Selected(latest, cfg.validators, NotFinished);
    gatePending := Selected(latest, cfg.gates, NotFinished);
    FailsFromLists(observed, cfg, sweepFailures, NamesWhere(cfg.validators, observed, FailsStrictly));
    UnfinishedFromLists(observed, cfg, gatePending, validatorPending);
    if sweepFailures != [] || validatorNotSuccess != [] {
      verdict := Failure;
    } else if gatePending != [] || validatorPending != [] {
      verdict := Pending;
    } else {
      verdict := Success;
    }
  }

  lemma FailsFromLists(rows: seq<JobState>, cfg: Config, sweepFailures: seq<string>, notSuccess: seq<string>)
    requires Elements(sweepFailures) == set r | r in rows && Swept(cfg, r) :: r.name
    requires notSuccess == NamesWhere(cfg.validators, rows, FailsStrictly)
    ensures sweepFailures != [] || Sort(notSuccess) != [] <==> Fails(rows, cfg)
  {
    SweepEmpty(rows, cfg, sweepFailures);
    SortedEmpty(notSuccess);
    NoneWhere(cfg.validators, rows, FailsStrictly);
  }

  lemma UnfinishedFromLists(rows: seq<JobState>, cfg: Config, gatePending: seq<string>, validatorPending: seq<string>)
    requires gatePending == NamesWhere(cfg.gates, rows, NotFinished)
    requires validatorPending == NamesWhere(cfg.validators, rows, NotFinished)
    ensures gatePending != [] || validatorPending != [] <==> Unfinished(rows, cfg)
  {
    NoneWhere(cfg.gates, rows, NotFinished);
    NoneWhere(cfg.validators, rows, NotFinished);
  }

  lemma SweepEmpty(rows: seq<JobState>, cfg: Config, names: seq<string>)
    requires Elements(names) == set r | r in rows && Swept(cfg, r) :: r.name
    ensures names == [] <==> forall r :: r in rows ==> !Swept(cfg, r)
  {
    if r :| r in rows && Swept(cfg, r) {
      assert r.name in Elements(names);
    }
    if names != [] {
      assert names[0] in Elements(names);
    }
  }

  lemma SortedEmpty(names: seq<string>)
    ensures Sort(names) == [] <==> names == []
  {
    SortElements(names);
    if Sort(names) != [] {
      assert Sort(names)[0] in Sort(names);
    }
    if names != [] {
      assert names[0] in names;
    }
  }

  // ---- Polling a run ----

  ghost predicate OneRowPerName(rows: seq<JobState>) {
    forall r, s :: r in rows && s in rows && r.name == s.name ==> r == s
  }

  /** One poll to a later one: rows may appear, no row disappears, a completed row is final. */
  ghost predicate Advances(s: seq<JobState>, t: seq<JobState>) {
    forall r :: r in s ==> exists q :: q in t && q.name == r.name && (r.Completed() ==> q == r)
  }

  /** The successive snapshots of one attempt of a workflow run. */
  ghost predicate Polls(run: seq<seq<JobState>>) {
    && (forall i :: 0 <= i < |run| ==> OneRowPerName(run[i]))
    && forall i :: 0 < i < |run| ==> Advances(run[i - 1], run[i])
  }

  lemma {:induction false} LatestRowFound(rows: seq<JobState>, name: string)
    ensures LatestRow(rows, name).Some? ==>
              LatestRow(rows, name).value in rows && LatestRow(rows, name).value.name == name
    ensures LatestRow(rows, name).None? ==> forall r :: r in rows ==> r.name != name
  {
    if rows != [] {
      LatestRowFound(rows[..|rows| - 1], name);
      assert rows == rows[..|rows| - 1] + [rows[|rows| - 1]];
    }
  }

  lemma LatestRowUnique(rows: seq<JobState>, r: JobState)
    requires OneRowPerName(rows) && r in rows
    ensures LatestRow(rows, r.name) == Some(r)
  {
    LatestRowFound(rows, r.name);
  }

  lemma AdvancesTransitive(s: seq<JobState>, t: seq<JobState>, u: seq<JobState>)
    requires Advances(s, t) && Advances(t, u)
    ensures Advances(s, u)
  {
    forall r | r in s ensures exists q :: q in u && q.name == r.name && (r.Completed() ==> q == r) {
      var m :| m in t && m.name == r.name && (r.Completed() ==> m == r);
      var q :| q in u && q.name == m.name && (m.Completed() ==> q == m);
    }
  }

  lemma {:induction false} AdvancesOverRun(run: seq<seq<JobState>>, i: nat, j: nat)
    requires Polls(run) && i <= j < |run|
    ensures Advances(run[i], run[j])
    decreases j
  {
    if i < j {
      AdvancesOverRun(run, i, j - 1);
      AdvancesTransitive(run[i], run[j - 1], run[j]);
    }
  }

  /** A finished row is still the latest of its name later on. */
  lemma FinishedStays(s: seq<JobState>, t: seq<JobState>, name: string)
    requires Advances(s, t) && OneRowPerName(t) && !NotFinished(LatestRow(s, name))
    ensures LatestRow(t, name) == LatestRow(s, name)
  {
    LatestRowFound(s, name);
    var r := LatestRow(s, name).value;
    var q :| q in t && q.name == r.name && (r.Completed() ==> q == r);
    LatestRowUnique(t, q);
  }

  lemma FailsStays(s: seq<JobState>, t: seq<JobState>, cfg: Config)
    requires Advances(s, t) && OneRowPerName(t) && Fails(s, cfg)
    ensures Fails(t, cfg)
  {
    if r :| r in s && Swept(cfg, r) {
      var q :| q in t && q.name == r.name && (r.Completed() ==> q == r);
    } else {
      var v :| v in cfg.validators && FailsStrictly(LatestRow(s, v));
      FinishedStays(s, t, v);
    }
  }

  lemma FinishedStaysAll(s: seq<JobState>, t: seq<JobState>, cfg: Config)
    requires Advances(s, t) && OneRowPerName(t) && !Unfinished(s, cfg)
    ensures !Unfinished(t, cfg)
  {
    forall n | n in cfg.gates || n in cfg.validators ensures !NotFinished(LatestRow(t, n)) {
      FinishedStays(s, t, n);
    }
  }

  /** Over a whole run: failure is absorbing, and success never falls back to pending. */
  lemma PollingSafe(run: seq<seq<JobState>>, cfg: Config, i: nat, j: nat)
    requires Polls(run) && i <= j < |run|
    ensures VerdictOn(run[i], cfg) == Failure ==> VerdictOn(run[j], cfg) == Failure
    ensures VerdictOn(run[i], cfg) == Success ==> VerdictOn(run[j], cfg) != Pending
  {
    AdvancesOverRun(run, i, j);
    if Fails(run[i], cfg) { FailsStays(run[i], run[j], cfg); }
    if !Unfinished(run[i], cfg) { FinishedStaysAll(run[i], run[j], cfg); }
  }

  /** A successful verdict turns to failure later exactly when a row that was not completed, or not
      there, completes badly outside the allowlist. */
  lemma SuccessLostOnlyToLateRow(s: seq<JobState>, t: seq<JobState>, cfg: Config)
    requires Advances(s, t) && OneRowPerName(s) && OneRowPerName(t) && VerdictOn(s, cfg) == Success
    ensures VerdictOn(t, cfg) == Failure <==> exists r :: r in t && r !in s && Swept(cfg, r)
  {
    FinishedStaysAll(s, t, cfg);
    forall v | v in cfg.validators ensures !FailsStrictly(LatestRow(t, v)) {
      assert !NotFinished(LatestRow(s, v)) && !FailsStrictly(LatestRow(s, v));
      FinishedStays(s, t, v);
    }
  }

  /** What success certifies, with no assumption on the rows: every completed row outside the
      allowlist is good, every gate has finished, every required validator strictly succeeded. */
  lemma SuccessMeans(rows: seq<JobState>, cfg: Config)
    ensures VerdictOn(rows, cfg) == Success <==>
            && (forall r :: r in rows && r.name != cfg.selfName && r.name !in cfg.allowlist && r.Completed() ==>
                  r.Good())
            && (forall g :: g in cfg.gates ==> LatestRow(rows, g).Some? && LatestRow(rows, g).value.Completed())
            && (forall v :: v in cfg.validators ==>
                  && LatestRow(rows, v).Some? && LatestRow(rows, v).value.Completed()
                  && LatestRow(rows, v).value.conclusion == Some("success"))
  {
    if VerdictOn(rows, cfg) == Success {
      forall v | v in cfg.validators ensures !NotFinished(LatestRow(rows, v)) && !FailsStrictly(LatestRow(rows, v)) {
      }
    }
  }

  /** For gates outside the allowlist, success means each finished with a good conclusion. */
  lemma SuccessGatesGood(rows: seq<JobState>, cfg: Config, g: string)
    requires VerdictOn(rows, cfg) == Success && g in cfg.gates && g !in cfg.allowlist && g != cfg.selfName
    ensures LatestRow(rows, g).Some? && LatestRow(rows, g).value.Completed() && LatestRow(rows, g).value.Good()
    ensures forall r :: r in rows && r.name == g && r.Completed() ==> r.Good()
  {
    SuccessMeans(rows, cfg);
    LatestRowFound(rows, g);
  }

  const DEFAULTS := Config(
    "CI Summary",
    ["Quality Gate", "Tests Gate", "Contract Compliance Check", "Cross-repo boundary validation"],
    {"Version Pin Compliance", "Contract Compliance"},
    ["Code Quality", "Mypy Validation Scripts", "Core-Infra Boundary", "Enum Governance Check", "Naming Conventions",
     "Pydantic Patterns", "AI Slop Patterns", "Doc-Content Scan", "No New os.environ Reads (OMN-13566)",
     "SPDX Headers", "Duplicate Registry Ids", "Hardcoded Topic Validator"])

  /** With the configured names no gate is allowlisted, so success certifies all of them. */
  lemma DefaultSuccess(rows: seq<JobState>, g: string)
    requires VerdictOn(rows, DEFAULTS) == Success && g in DEFAULTS.gates
    ensures LatestRow(rows, g).Some? && LatestRow(rows, g).value.Completed() && LatestRow(rows, g).value.Good()
  {
    assert |"Contract Compliance"| != |g| && |"Version Pin Compliance"| != |g|;
    SuccessGatesGood(rows, DEFAULTS, g);
  }

  /** One success row for each of the names. */
  function SuccessRows(names: seq<string>): seq<JobState> {
    if names == [] then []
    else SuccessRows(names[..|names| - 1]) + [JobState(names[|names| - 1], "completed", Some("success"), 1)]
  }

  lemma {:induction false} SuccessRowsLatest(rows: seq<JobState>, names: seq<string>, v: string)
    ensures v in names ==> LatestRow(rows + SuccessRows(names), v) == Some(JobState(v, "completed", Some("success"), 1))
    ensures forall r :: r in SuccessRows(names) ==> r.Completed() && r.Good()
  {
    if names != [] {
      var init, last := names[..|names| - 1], names[|names| - 1];
      SuccessRowsLatest(rows, init, v);
      var all := rows + SuccessRows(names);
      assert all[..|all| - 1] == rows + SuccessRows(init);
      assert names == init + [last];
    }
  }

  lemma SweptStays(s: seq<JobState>, t: seq<JobState>, cfg: Config, r: JobState)
    requires Advances(s, t) && r in s && Swept(cfg, r)
    ensures Fails(t, cfg)
  {
    var q :| q in t && q.name == r.name && (r.Completed() ==> q == r);
  }

  /** A failed validator that the sweep tolerates is outvoted by later success rows. */
  lemma ToleratedRevives(s: seq<JobState>, cfg: Config) returns (t: seq<JobState>)
    requires forall r :: r in s ==> !Swept(cfg, r)
    ensures Advances(s, t) && !Fails(t, cfg)
  {
    t := s + SuccessRows(cfg.validators);
    forall r | r in s ensures r in t {
    }
    SuccessRowsLatest(s, cfg.validators, "");
    forall v | v in cfg.validators ensures !FailsStrictly(LatestRow(t, v)) {
      SuccessRowsLatest(s, cfg.validators, v);
    }
    forall r | r in t ensures !Swept(cfg, r) {
      assert r in s || r in SuccessRows(cfg.validators);
    }
  }

  /** Without one row per name: a failure is final, whatever rows come later, exactly when some row is
      swept, that is, completed badly outside the allowlist. */
  lemma FailureFinalIff(s: seq<JobState>, cfg: Config)
    requires Fails(s, cfg)
    ensures (forall t :: Advances(s, t) ==> Fails(t, cfg)) <==> exists r :: r in s && Swept(cfg, r)
  {
    if r :| r in s && Swept(cfg, r) {
      forall t | Advances(s, t) ensures Fails(t, cfg) {
        SweptStays(s, t, cfg, r);
      }
    } else {
      var t := ToleratedRevives(s, cfg);
    }
  }

  predicate Required(cfg: Config, name: string) {
    name in cfg.gates || name in cfg.validators
  }

  /** One more row, of a name that runs again. */
  function Restarted(s: seq<JobState>, name: string): seq<JobState> {
    s + [JobState(name, "in_progress", None, 1)]
  }

  lemma RestartedLatest(s: seq<JobState>, name: string, other: string)
    ensures LatestRow(Restarted(s, name), other) ==
      if other == name then Some(JobState(name, "in_progress", None, 1)) else LatestRow(s, other)
  {
    var t := Restarted(s, name);
    assert t[..|t| - 1] == s;
  }

  /** A required name that runs again makes a success pending. */
  lemma RestartReopens(s: seq<JobState>, cfg: Config, name: string)
    requires VerdictOn(s, cfg) == Success && Required(cfg, name)
    ensures Advances(s, Restarted(s, name)) && VerdictOn(Restarted(s, name), cfg) == Pending
  {
    var t := Restarted(s, name);
    forall r | r in s ensures r in t {
    }
    forall v | v in cfg.validators ensures !FailsStrictly(LatestRow(t, v)) {
      RestartedLatest(s, name, v);
      assert !FailsStrictly(LatestRow(s, v));
    }
    forall r | r in t ensures !Swept(cfg, r) {
      assert r in s || !r.Completed();
    }
    RestartedLatest(s, name, name);
    assert NotFinished(LatestRow(t, name));
  }

  /** Without one row per name: a success can turn pending exactly when some name is required at all. */
  lemma SuccessReopensIff(s: seq<JobState>, cfg: Config)
    requires VerdictOn(s, cfg) == Success
    ensures (exists t :: Advances(s, t) && VerdictOn(t, cfg) == Pending) <==> exists n :: Required(cfg, n)
  {
    if n :| Required(cfg, n) {
      RestartReopens(s, cfg, n);
    }
    if t :| Advances(s, t) && VerdictOn(t, cfg) == Pending {
      var n :| (n in cfg.gates || n in cfg.validators) && NotFinished(LatestRow(t, n));
      assert Required(cfg, n);
    }
  }

  /** And then it is such a second row: a required name has a completed row from before and an
      unfinished one. */
  lemma SuccessLostOnlyToSecondRow(s: seq<JobState>, t: seq<JobState>, cfg: Config)
    requires Advances(s, t) && VerdictOn(s, cfg) == Success && VerdictOn(t, cfg) == Pending
    ensures exists r, q :: r in s && r in t && q in t && Required(cfg, r.name) && r.name == q.name
                           && r.Completed() && !q.Completed()
  {
    var n :| (n in cfg.gates || n in cfg.validators) && NotFinished(LatestRow(t, n));
    assert !NotFinished(LatestRow(s, n));
    LatestRowFound(s, n);
    LatestRowFound(t, n);
    var r := LatestRow(s, n).value;
    var m :| m in t && m.name == r.name && (r.Completed() ==> m == r);
    assert r in t && LatestRow(t, n).value in t && Required(cfg, r.name);
  }

  /** One row per name is needed: a validator's skipped row is outvoted by a later success row. */
  lemma DuplicateRowRevives()
    ensures exists cfg, s, t :: Advances(s, t) && VerdictOn(s, cfg) == Failure && VerdictOn(t, cfg) == Success
  {
    var cfg := Config("poller", [], {}, ["v"]);
    var skipped := JobState("v", "completed", Some("skipped"), 1);
    var passed := JobState("v", "completed", Some("success"), 1);
    var s, t := [skipped], [skipped, passed];
    assert LatestRow(s, "v") == Some(skipped) && LatestRow(t, "v") == Some(passed);
    assert FailsStrictly(LatestRow(s, "v"));
    assert VerdictOn(s, cfg) == Failure;
    assert VerdictOn(t, cfg) == Success by {
      assert skipped.Good() && passed.Good();
    }
  }
}
