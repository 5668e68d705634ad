/** What get_sref.py does with its plan: it empties the working directory of
    "*.nc" and "*.grib2" files, then walks the pairs in order, skipping a
    pair whose NetCDF file is already there and otherwise downloading the
    raw file and converting it.

    The download and the converter are outside the model. Each planned
    iteration is given an Outcome instead: the download raises (which ends
    the script, since nothing catches the exception), or it succeeds and
    the converter does or does not leave the NetCDF file behind (its exit
    status is never looked at). */
module SrefDriver {
  import opened Text
  import opened SrefPlan

  datatype Outcome = FetchFails | Fetched(produced: bool)

  // ---------------------------------------------------------------------------
  // The specification: a run as a function of the directory and the outcomes

  /** The directory, the tasks downloaded so far, and whether a download failed. */
  datatype Run = Run(files: set<string>, fetched: seq<Task>, aborted: bool)

  /** One iteration of the inner loop. */
  function Step(r: Run, t: Task, o: Outcome): Run {
    if r.aborted || t.converted in r.files then r
    else match o
      case FetchFails => r.(aborted := true)
      case Fetched(produced) =>
        Run(r.files + {t.raw} + (if produced then {t.converted} else {}), r.fetched + [t], false)
  }

  /** The iterations for `tasks`, in order, the i-th meeting outs[i]. */
  function Execute(r: Run, tasks: seq<Task>, outs: seq<Outcome>): Run
    requires |outs| == |tasks|
    decreases |tasks|
  {
    if tasks == [] then r else Execute(Step(r, tasks[0], outs[0]), tasks[1..], outs[1..])
  }

  /** The position of the first failing download, or |outs| when none fails. */
  function FirstFailure(outs: seq<Outcome>): (n: nat)
    ensures n <= |outs|
    ensures forall i :: 0 <= i < n ==> outs[i].Fetched?
    ensures n < |outs| ==> outs[n].FetchFails?
    decreases |outs|
  {
    if outs == [] || outs[0].FetchFails? then 0 else 1 + FirstFailure(outs[1..])
  }

  function Raws(ts: seq<Task>): set<string>
    decreases |ts|
  {
    if ts == [] then {} else {ts[0].raw} + Raws(ts[1..])
  }

  /** The NetCDF files the converter left behind. */
  function Produced(ts: seq<Task>, outs: seq<Outcome>): set<string>
    requires |outs| == |ts|
    decreases |ts|
  {
    if ts == [] then {}
    else (if outs[0] == Fetched(true) then {ts[0].converted} else {}) + Produced(ts[1..], outs[1..])
  }

  /** `rm -f *.nc` followed by `rm -f *.grib2`. */
  function Clean(dir: set<string>): set<string> {
    set f | f in dir && !EndsWith(f, ".nc") && !EndsWith(f, ".grib2")
  }

  /** The iterations of `ts` meet no skip: none of their NetCDF files is in
      the directory, and no download or conversion of one of them writes the
      NetCDF file of another. */
  predicate Fresh(files: set<string>, ts: seq<Task>) {
    && (forall i | 0 <= i < |ts| :: ts[i].converted !in files)
    && (forall i, j | 0 <= i < j < |ts| :: ts[i].converted != ts[j].converted)
    && (forall i, j | 0 <= i < |ts| && 0 <= j < |ts| :: ts[i].raw != ts[j].converted)
  }

  // ---------------------------------------------------------------------------
  // Properties of a run

  /** After a failed download nothing more happens. */
  lemma {:induction false} ExecuteAborted(r: Run, ts: seq<Task>, outs: seq<Outcome>)
    requires |outs| == |ts| && r.aborted
    ensures Execute(r, ts, outs) == r
    decreases |ts|
  {
    if ts != [] {
      ExecuteAborted(Step(r, ts[0], outs[0]), ts[1..], outs[1..]);
    }
  }

  /** Running from position k is iteration k followed by the rest. */
  lemma ExecuteFrom(r: Run, ts: seq<Task>, outs: seq<Outcome>, k: int)
    requires |outs| == |ts| && 0 <= k < |ts|
    ensures Execute(r, ts[k..], outs[k..]) == Execute(Step(r, ts[k], outs[k]), ts[k + 1..], outs[k + 1..])
  {
    assert ts[k..][1..] == ts[k + 1..];
    assert outs[k..][1..] == outs[k + 1..];
  }

  /** When every NetCDF file is already present, a run changes nothing. */
  lemma {:induction false} ExecuteAllPresent(r: Run, ts: seq<Task>, outs: seq<Outcome>)
    requires |outs| == |ts|
    requires forall i | 0 <= i < |ts| :: ts[i].converted in r.files
    ensures Execute(r, ts, outs) == r
    decreases |ts|
  {
    if ts != [] {
      ExecuteAllPresent(r, ts[1..], outs[1..]);
    }
  }

  lemma RawsCons(t: Task, ts: seq<Task>)
    ensures Raws([t] + ts) == {t.raw} + Raws(ts)
  {
    assert ([t] + ts)[1..] == ts;
  }

  lemma ProducedCons(t: Task, ts: seq<Task>, o: Outcome, outs: seq<Outcome>)
    requires |outs| == |ts|
    ensures Produced([t] + ts, [o] + outs)
      == (if o == Fetched(true) then {t.converted} else {}) + Produced(ts, outs)
  {
    assert ([t] + ts)[1..] == ts;
    assert ([o] + outs)[1..] == outs;
  }

  /** A download and conversion of the first task leave the rest without a skip. */
  lemma FreshAfterFetch(files: set<string>, ts: seq<Task>, produced: bool)
    requires |ts| > 0 && Fresh(files, ts)
    ensures Fresh(files + {ts[0].raw} + (if produced then {ts[0].converted} else {}), ts[1..])
  {
    var rest := ts[1..];
    forall i | 0 <= i < |rest|
      ensures rest[i].converted != ts[0].raw && rest[i].converted != ts[0].converted
    {
      assert rest[i] == ts[i + 1];
    }
  }

  lemma PrefixCons<T>(s: seq<T>, n: int)
    requires 1 <= n <= |s|
    ensures s[..n] == [s[0]] + s[1..][..n - 1]
  {
  }

  /** A run that meets no skip downloads the tasks in order up to the first
      failing download and stops there; the directory gains exactly their
      raw files and the NetCDF files the converter produced. */
  lemma {:induction false} FreshRun(r: Run, ts: seq<Task>, outs: seq<Outcome>)
    requires |outs| == |ts| && !r.aborted && Fresh(r.files, ts)
    ensures var n := FirstFailure(outs);
      var e := Execute(r, ts, outs);
      e.fetched == r.fetched + ts[..n] &&
      e.aborted == (n < |ts|) &&
      e.files == r.files + Raws(ts[..n]) + Produced(ts[..n], outs[..n])
    decreases |ts|
  {
    assert ts[..0] == [] && outs[..0] == [] && r.fetched + [] == r.fetched;
    if ts != [] {
      var r' := Step(r, ts[0], outs[0]);
      match outs[0]
      case FetchFails =>
        ExecuteAborted(r', ts[1..], outs[1..]);
      case Fetched(produced) =>
        FreshAfterFetch(r.files, ts, produced);
        FreshRun(r', ts[1..], outs[1..]);
        var n := FirstFailure(outs);
        PrefixCons(ts, n);
        PrefixCons(outs, n);
        RawsCons(ts[0], ts[1..][..n - 1]);
        ProducedCons(ts[0], ts[1..][..n - 1], outs[0], outs[1..][..n - 1]);
        assert r.fetched + ts[..n] == r.fetched + [ts[0]] + ts[1..][..n - 1];
    }
  }

  /** When every download succeeds and every conversion produces its file,
      every NetCDF file of the tasks is produced. */
  lemma {:induction false} ProducedAll(ts: seq<Task>, outs: seq<Outcome>)
    requires |outs| == |ts|
    requires forall i | 0 <= i < |outs| :: outs[i] == Fetched(true)
    ensures forall i | 0 <= i < |ts| :: ts[i].converted in Produced(ts, outs)
    decreases |ts|
  {
    if ts != [] {
      ProducedAll(ts[1..], outs[1..]);
      forall i | 1 <= i < |ts|
        ensures ts[i].converted in Produced(ts[1..], outs[1..])
      {
        assert ts[i] == ts[1..][i - 1];
      }
    }
  }

  lemma NoFailure(outs: seq<Outcome>)
    requires forall i | 0 <= i < |outs| :: outs[i].Fetched?
    ensures FirstFailure(outs) == |outs|
  {
  }

  // ---------------------------------------------------------------------------
  // Cleanup

  /** A name ending in ".grb2" or ".nc" is not mistaken for the other suffix
      nor for ".grib2". */
  lemma SuffixesDiffer(raw: string, converted: string)
    requires EndsWith(raw, ".grb2") && EndsWith(converted, ".nc")
    ensures raw != converted
    ensures !EndsWith(raw, ".nc") && !EndsWith(raw, ".grib2")
    ensures EndsWith(converted, ".nc")
  {
    assert raw[|raw| - 1] == '2' && converted[|converted| - 1] == 'c';
    assert raw[|raw| - 5] == '.';
    assert |raw| >= 6 ==> raw[|raw| - 6..][1] == raw[|raw| - 5];
  }

  /** Cleanup deletes the NetCDF file of every iteration and keeps every raw
      download, since those end in ".grb2" and the second pattern only
      matches ".grib2". */
  lemma CleanNames(p: RunParameters, dir: set<string>)
    requires WellFormedAxes(p.cores, p.perts)
    ensures forall k | 0 <= k < |Plan(p)| ::
      Plan(p)[k].converted !in Clean(dir) &&
      (Plan(p)[k].raw in Clean(dir) <==> Plan(p)[k].raw in dir)
  {
    PlanNames(p);
    forall k | 0 <= k < |Plan(p)|
      ensures Plan(p)[k].converted !in Clean(dir)
      ensures Plan(p)[k].raw in Clean(dir) <==> Plan(p)[k].raw in dir
    {
      SuffixesDiffer(Plan(p)[k].raw, Plan(p)[k].converted);
    }
  }

  /** Cleaning twice is cleaning once. */
  lemma CleanIdempotent(dir: set<string>)
    ensures Clean(Clean(dir)) == Clean(dir)
    ensures Clean(dir) <= dir
  {
  }

  /** After cleanup no iteration is skipped: the run downloads the plan in
      order up to the first failing download, and on no failure downloads
      every task. */
  lemma CleanRun(p: RunParameters, dir: set<string>, log: seq<Task>, outs: seq<Outcome>)
    requires WellFormedAxes(p.cores, p.perts) && |outs| == |Plan(p)|
    ensures var n := FirstFailure(outs);
      var e := Execute(Run(Clean(dir), log, false), Plan(p), outs);
      e.fetched == log + Plan(p)[..n] &&
      e.aborted == (n < |outs|) &&
      e.files == Clean(dir) + Raws(Plan(p)[..n]) + Produced(Plan(p)[..n], outs[..n])
  {
    var plan := Plan(p);
    PlanNames(p);
    CleanNames(p, dir);
    assert Fresh(Clean(dir), plan) by {
      forall i, j | 0 <= i < |plan| && 0 <= j < |plan|
        ensures plan[i].raw != plan[j].converted
      {
        SuffixesDiffer(plan[i].raw, plan[j].converted);
      }
    }
    FreshRun(Run(Clean(dir), log, false), plan, outs);
  }

  /** After cleanup, when no download fails, the run downloads the whole
      plan and adds every raw file. */
  lemma CompleteRun(p: RunParameters, dir: set<string>, log: seq<Task>, outs: seq<Outcome>)
    requires WellFormedAxes(p.cores, p.perts) && |outs| == |Plan(p)|
    requires forall i | 0 <= i < |outs| :: outs[i].Fetched?
    ensures var e := Execute(Run(Clean(dir), log, false), Plan(p), outs);
      !e.aborted && e.fetched == log + Plan(p) &&
      e.files == Clean(dir) + Raws(Plan(p)) + Produced(Plan(p), outs)
  {
    CleanRun(p, dir, log, outs);
    NoFailure(outs);
    assert Plan(p)[..|outs|] == Plan(p) && outs[..|outs|] == outs;
  }

  /** Without the cleanup, a second run after a complete one skips every
      iteration: the directory and the downloads stay as they are. */
  lemma RerunWithoutCleanup(p: RunParameters, dir: set<string>, outs: seq<Outcome>, again: seq<Outcome>)
    requires WellFormedAxes(p.cores, p.perts)
    requires |outs| == |Plan(p)| && |again| == |Plan(p)|
    requires forall i | 0 <= i < |outs| :: outs[i] == Fetched(true)
    ensures var e := Execute(Run(Clean(dir), [], false), Plan(p), outs);
      !e.aborted && e.fetched == Plan(p) && Execute(e, Plan(p), again) == e
  {
    CompleteRun(p, dir, [], outs);
    ProducedAll(Plan(p), outs);
    ExecuteAllPresent(Execute(Run(Clean(dir), [], false), Plan(p), outs), Plan(p), again);
  }

  /** Cleanup keeps the raw files of the plan. */
  lemma RawsSurviveClean(p: RunParameters, files: set<string>)
    requires WellFormedAxes(p.cores, p.perts) && Raws(Plan(p)) <= files
    ensures Raws(Plan(p)) <= Clean(files)
  {
    RawsInDir(Plan(p), files);
    CleanNames(p, files);
    RawsKept(Plan(p), files, Clean(files));
  }

  /** With the cleanup, a second run after a complete one downloads every
      task again; the raw files of the first run survive the cleanup. */
  lemma RerunWithCleanup(p: RunParameters, dir: set<string>, outs: seq<Outcome>, again: seq<Outcome>)
    requires WellFormedAxes(p.cores, p.perts)
    requires |outs| == |Plan(p)| && |again| == |Plan(p)|
    requires forall i | 0 <= i < |outs| :: outs[i].Fetched?
    requires forall i | 0 <= i < |again| :: again[i].Fetched?
    ensures var e := Execute(Run(Clean(dir), [], false), Plan(p), outs);
      var e2 := Execute(Run(Clean(e.files), e.fetched, false), Plan(p), again);
      Raws(Plan(p)) <= Clean(e.files) && !e2.aborted && e2.fetched == Plan(p) + Plan(p)
  {
    var e := Execute(Run(Clean(dir), [], false), Plan(p), outs);
    CompleteRun(p, dir, [], outs);
    assert Raws(Plan(p)) <= e.files && e.fetched == Plan(p);
    RawsSurviveClean(p, e.files);
    CompleteRun(p, e.files, Plan(p), again);
  }

  lemma {:induction false} RawsInDir(ts: seq<Task>, files: set<string>)
    requires Raws(ts) <= files
    ensures forall i | 0 <= i < |ts| :: ts[i].raw in files
    decreases |ts|
  {
    if ts != [] {
      RawsInDir(ts[1..], files);
      forall i | 1 <= i < |ts|
        ensures ts[i].raw in files
      {
        assert ts[i] == ts[1..][i - 1];
      }
    }
  }

  lemma {:induction false} RawsKept(ts: seq<Task>, files: set<string>, kept: set<string>)
    requires forall i | 0 <= i < |ts| :: ts[i].raw in files ==> ts[i].raw in kept
    requires forall i | 0 <= i < |ts| :: ts[i].raw in files
    ensures Raws(ts) <= kept
    decreases |ts|
  {
    if ts != [] {
      RawsKept(ts[1..], files, kept);
      assert ts[0].raw in kept;
    }
  }

  /** Iteration j of the inner loop for cores[i] is iteration i * |perts| + j
      of the plan. */
  lemma PlanIndex(p: RunParameters, i: int, j: int, k: int)
    requires 0 <= i < |p.cores| && 0 <= j < |p.perts| && k == i * |p.perts| + j
    ensures 0 <= k < |Plan(p)| && Plan(p)[k] == MakeTask(p.cores[i], p.perts[j])
  {
    PlanSize(p);
    GridIndex(i, j, |p.cores|, |p.perts|);
    DivModUnique(k, |p.perts|, i, j);
    PlanAt(p, k);
  }

  // ---------------------------------------------------------------------------
  // The working directory

  /** The directory the script runs in, with the log of what it downloaded. */
  class WorkDir {
    var files: set<string>
    var fetched: seq<Task>

    constructor(initial: set<string>)
      ensures files == initial && fetched == []
    {
      files := initial;
      fetched := [];
    }

    /** `rm -f *{suffix}` */
    method Remove(suffix: string)
      modifies this
      ensures files == set f | f in old(files) && !EndsWith(f, suffix)
      ensures fetched == old(fetched)
    {
      files := set f | f in files && !EndsWith(f, suffix);
    }

    /** The two `rm -f` commands before the loop. */
    method Cleanup()
      modifies this
      ensures files == Clean(old(files))
      ensures fetched == old(fetched)
    {
      Remove(".nc");
      Remove(".grib2");
    }

    /** A successful `urlretrieve(Url(p, t.core, t.pert), t.raw)`: the raw
        file is written and nothing else changes. */
    method Retrieve(t: Task)
      modifies this
      ensures files == old(files) + {t.raw}
      ensures fetched == old(fetched) + [t]
    {
      files := files + {t.raw};
      fetched := fetched + [t];
    }

    /** `wgrib2 {raw} -netcdf {converted}`: at most the task's own NetCDF
        file appears. */
    method Convert(t: Task, produced: bool)
      modifies this
      ensures files == old(files) + (if produced then {t.converted} else {})
      ensures fetched == old(fetched)
    {
      if produced {
        files := files + {t.converted};
      }
    }

    /** The body of the inner loop: skip the pair when its NetCDF file is
        there, otherwise download and convert. The result is false when the
        download fails. */
    method Visit(t: Task, o: Outcome) returns (ok: bool)
      modifies this
      ensures Run(files, fetched, !ok) == Step(Run(old(files), old(fetched), false), t, o)
    {
      if t.converted in files {
        return true;
      }
      match o {
        case FetchFails =>
          return false;
        case Fetched(produced) =>
          Retrieve(t);
          Convert(t, produced);
          return true;
      }
    }

    /** The nested loops over cores and perturbations. Iteration
        i * |perts| + j meets outcomes[i * |perts| + j]; the result says
        whether the loops ran to the end. */
    method FetchAll(p: RunParameters, outcomes: seq<Outcome>) returns (completed: bool)
      requires |outcomes| == |Plan(p)|
      modifies this
      ensures var e := Execute(Run(old(files), old(fetched), false), Plan(p), outcomes);
        files == e.files && fetched == e.fetched && completed == !e.aborted
    {
      ghost var plan := Plan(p);
      ghost var goal := Execute(Run(files, fetched, false), plan, outcomes);
      PlanSize(p);
      var n := |p.perts|;
      var k := 0;
      for i := 0 to |p.cores|
        invariant k == i * n && k <= |plan|
        invariant Execute(Run(files, fetched, false), plan[k..], outcomes[k..]) == goal
      {
        for j := 0 to n
          invariant k == i * n + j && k <= |plan|
          invariant Execute(Run(files, fetched, false), plan[k..], outcomes[k..]) == goal
        {
          var t := MakeTask(p.cores[i], p.perts[j]);
          PlanIndex(p, i, j, k);
          ExecuteFrom(Run(files, fetched, false), plan, outcomes, k);
          var ok := Visit(t, outcomes[k]);
          if !ok {
            ExecuteAborted(Run(files, fetched, true), plan[k + 1..], outcomes[k + 1..]);
            return false;
          }
          k := k + 1;
        }
        MulStep(i + 1, n);
      }
      assert plan[k..] == [];
      completed := true;
    }

    /** The whole script: cleanup, then the loops over the script's own
        constants. Every pair is downloaded, in order, up to the first
        failing download; the directory keeps what survived the cleanup and
        gains the raw files and the NetCDF files the converter produced. */
    method RunScript(outcomes: seq<Outcome>) returns (completed: bool)
      requires |outcomes| == 26
      modifies this
      ensures var n := FirstFailure(outcomes);
        && fetched == old(fetched) + Plan(Fixed)[..n]
        && completed == (n == 26)
        && files == Clean(old(files)) + Raws(Plan(Fixed)[..n]) + Produced(Plan(Fixed)[..n], outcomes[..n])
    {
      FixedAxes();
      FixedPlanSize();
      CleanRun(Fixed, files, fetched, outcomes);
      Cleanup();
      completed := FetchAll(Fixed, outcomes);
    }
  }
}
