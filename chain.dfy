/**
 * A value-level reference model of Metropolis1dStep.run
 * (mcmc/metropolis.py:217-394): the whole state the run keeps, one iteration
 * as a function of that state, and the run as the iteration folded over its
 * inputs. The imperative class in module Metropolis is proved to follow this
 * model step for step; the invariants and the whole-run properties are
 * proved here.
 *
 * The stochastic and foreign parts of an iteration are inputs (a Draw): the
 * candidate the proposal returned, its log-prior and log-likelihood, the
 * accept decision the random test took, and the values numpy leaves in ratio
 * entries it does not compute. Every property below holds for all of them.
 */
module Chain {
  import opened Stats
  import Tuning
  import W = Window

  /** The arguments of run that govern the bookkeeping. */
  datatype Config = Config(n: nat, tune: int, tuneInterval: nat, discardTunedSamples: bool, thin: nat)

  /**
   * What run needs of its arguments: `n // thin` divides by thin, and every
   * iteration clears row 0 of a window `tuneInterval` rows deep and takes the
   * iteration number modulo `tuneInterval`.
   */
  ghost predicate ValidConfig(cfg: Config)
  {
    cfg.thin > 0 && (cfg.n == 0 || cfg.tuneInterval > 0)
  }

  /** The inputs of one iteration, produced outside the core. */
  datatype Draw = Draw(
    xp: seq<real>,            // the candidate returned by the proposal
    logprior: real,           // the log-prior at the candidate
    loglike: real,            // the log-likelihood at the candidate
    accepted: bool,           // outcome of the random accept test
    unsetRatios: seq<real>)   // what the ratio array holds where no division is done

  ghost predicate Fits(d: Draw, width: nat)
  {
    |d.xp| == width && |d.unsetRatios| == width
  }

  ghost predicate AllFit(draws: seq<Draw>, width: nat)
  {
    forall k :: 0 <= k < |draws| ==> Fits(draws[k], width)
  }

  /** Everything a run reads and writes: the object's fields and run's own locals. */
  datatype State = State(
    x: seq<real>,                 // the current position (run's `x`, the caller's x0 buffer)
    loglike: real,                // `_x_loglike`
    logprior: real,               // run's `x_logprior`
    nAccept: nat,                 // run's `n_accept`
    iter: nat,                    // `_current_iter`
    propWin: seq<seq<bool>>,      // `_prop_mat`
    accWin: seq<seq<bool>>,       // `_accept_mat`
    nProp: seq<nat>,              // `_recent_n_prop`
    nAcc: seq<nat>,               // `_recent_n_accept`
    ratios: seq<real>,            // `_accept_ratios`
    generalRatio: real,           // `_general_accept_ratio`
    propS: seq<real>,             // `prop_S`
    samples: seq<seq<real>>,      // `samples`
    stats: map<StatName, seq<seq<real>>>)  // `stats`

  // ---------------------------------------------------------------------------
  // Sizing (initialize_arrays)

  /**
   * Number of rows of the output tables. The discard_tuning reduction is
   * computed and then overwritten by `n // thin`, so it has no effect.
   */
  function NSamples(n: nat, thin: nat, tune: int, discardTuning: bool): (rows: nat)
    requires thin > 0
  {
    var requested := if discardTuning then n - tune else n;
    n / thin
  }

  /** Whatever discard_tuning says, the tables get `n // thin` rows. */
  lemma {:induction false} DiscardTuningIgnored(n: nat, thin: nat, tune: int)
    requires thin > 0
    ensures NSamples(n, thin, tune, true) == NSamples(n, thin, tune, false) == n / thin
  {
  }

  function Zeros(width: nat): (row: seq<real>)
    ensures |row| == width
  {
    seq(width, _ => 0.0)
  }

  function NatZeros(width: nat): (row: seq<nat>)
    ensures |row| == width
  {
    seq(width, _ => 0)
  }

  /** A zero-filled table, as np.zeros((rows, width)) allocates. */
  function Table(rows: nat, width: nat): (t: seq<seq<real>>)
    ensures |t| == rows
  {
    seq(rows, _ => Zeros(width))
  }

  /**
   * The stats dictionary after initialize_arrays: a fresh zero table for every
   * registered name, every other entry kept.
   */
  function Allocate(stats: map<StatName, seq<seq<real>>>, names: seq<StatName>, rows: nat, width: nat)
    : (r: map<StatName, seq<seq<real>>>)
    ensures stats.Keys <= r.Keys
    decreases |names|
  {
    if |names| == 0 then stats
    else
      var prev := Allocate(stats, names[..|names| - 1], rows, width);
      var st := names[|names| - 1];
      prev[st := Table(rows, Width(st, width))]
  }

  /** When every old key is a registered name, so is every key after allocation. */
  lemma {:induction false} AllocateKeys(stats: map<StatName, seq<seq<real>>>, names: seq<StatName>, rows: nat, width: nat)
    requires forall st :: st in stats ==> st in names
    ensures forall st :: st in Allocate(stats, names, rows, width) ==> st in names
  {
    AllocateTables(stats, names, rows, width);
  }

  /**
   * After allocation the keys are the old keys and the registered names;
   * each registered name holds a zero table of its catalog width, every
   * other entry is kept.
   */
  lemma {:induction false} AllocateTables(stats: map<StatName, seq<seq<real>>>, names: seq<StatName>, rows: nat,
                                          width: nat)
    ensures forall st :: st in Allocate(stats, names, rows, width) <==> st in stats || st in names
    ensures forall st :: st in Allocate(stats, names, rows, width) ==>
              Allocate(stats, names, rows, width)[st]
              == if st in names then Table(rows, Width(st, width)) else stats[st]
    decreases |names|
  {
    if |names| > 0 {
      var front, last := names[..|names| - 1], names[|names| - 1];
      AllocateTables(stats, front, rows, width);
      assert names == front + [last];
    }
  }

  /** The state at the top of the first iteration: initialize_arrays, then run's own set-up. */
  function Init(x0: seq<real>, loglike0: real, logprior0: real, propS: seq<real>, generalRatio: real,
                stats: map<StatName, seq<seq<real>>>, cfg: Config, names: seq<StatName>): State
    requires cfg.thin > 0
  {
    var width := |x0|;
    var rows := NSamples(cfg.n, cfg.thin, cfg.tune, cfg.discardTunedSamples);
    State(x0, loglike0, logprior0, 0, 1,
          W.Empty(cfg.tuneInterval, width), W.Empty(cfg.tuneInterval, width),
          NatZeros(width), NatZeros(width), Zeros(width), generalRatio, propS,
          Table(rows, width), Allocate(stats, names, rows, width))
  }

  // ---------------------------------------------------------------------------
  // One iteration

  /** The tuner runs at every multiple of tuneInterval strictly before the horizon `tune`. */
  predicate TuneDue(iter: nat, cfg: Config)
    requires cfg.tuneInterval > 0
  {
    iter % cfg.tuneInterval == 0 && iter < cfg.tune
  }

  /** The save test of run: it reads the total iteration count, not the iteration index. */
  predicate SaveDue(cfg: Config)
    requires cfg.thin > 0
  {
    cfg.n % cfg.thin == 0
  }

  /** The chain-state fields a stat can name. */
  datatype Live = Live(loglike: real, generalRatio: real, propS: seq<real>, ratios: seq<real>)

  /** The row a stat records: the field the catalog maps it to. */
  function StatValue(st: StatName, live: Live): seq<real>
  {
    match st
    case LogLikelihood => [live.loglike]
    case AcceptRatio => [live.generalRatio]
    case PropS => live.propS
    case ParameterAcceptRatio => live.ratios
  }

  /** Records every registered stat into row `row` of its table, in registration order. */
  function Record(stats: map<StatName, seq<seq<real>>>, names: seq<StatName>, row: nat, live: Live)
    : (r: map<StatName, seq<seq<real>>>)
    requires forall k :: 0 <= k < |names| ==> names[k] in stats && row < |stats[names[k]]|
    ensures forall st {:trigger r[st]} :: (st in r <==> st in stats) && (st in stats ==> |r[st]| == |stats[st]|)
    decreases |names|
  {
    if |names| == 0 then stats
    else
      var prev := Record(stats, names[..|names| - 1], row, live);
      var st := names[|names| - 1];
      prev[st := prev[st][row := StatValue(st, live)]]
  }

  /**
   * The result of recording does not depend on the registration order or on
   * repeated names: each registered stat's row `row` holds its live value and
   * nothing else changes.
   */
  lemma {:induction false} RecordRows(stats: map<StatName, seq<seq<real>>>, names: seq<StatName>, row: nat, live: Live)
    requires forall k :: 0 <= k < |names| ==> names[k] in stats && row < |stats[names[k]]|
    ensures forall st :: st in stats ==>
              Record(stats, names, row, live)[st]
              == if st in names then stats[st][row := StatValue(st, live)] else stats[st]
    decreases |names|
  {
    if |names| > 0 {
      var front, last := names[..|names| - 1], names[|names| - 1];
      RecordRows(stats, front, row, live);
      assert names == front + [last];
    }
  }

  /** The shapes an iteration relies on: window depth and width, vector lengths, table rows. */
  ghost predicate Shaped(s: State, cfg: Config, names: seq<StatName>)
  {
    var width := |s.x|;
    ValidConfig(cfg) && s.iter >= 1 &&
    |s.propS| == width && |s.ratios| == width &&
    |s.propWin| == cfg.tuneInterval && W.Uniform(s.propWin, width) &&
    |s.accWin| == cfg.tuneInterval && W.Uniform(s.accWin, width) &&
    |s.samples| == cfg.n / cfg.thin &&
    forall k :: 0 <= k < |names| ==> names[k] in s.stats && |s.stats[names[k]]| == |s.samples|
  }

  /** Accept is contained in propose, and the column sums are those of the windows. */
  ghost predicate WindowsAgree(s: State)
  {
    W.Subsumed(s.accWin, s.propWin, |s.x|) &&
    s.nProp == W.Counts(s.propWin, |s.x|) && s.nAcc == W.Counts(s.accWin, |s.x|)
  }

  /** Every ratio over a nonzero proposal count is accepted count / proposed count. */
  ghost predicate RatiosAgree(s: State)
  {
    |s.nProp| == |s.nAcc| == |s.ratios| == |s.x| &&
    forall c :: 0 <= c < |s.x| && s.nProp[c] != 0 ==>
      s.ratios[c] == s.nAcc[c] as real / s.nProp[c] as real
  }

  /**
   * The accept counter is below the iteration counter, and once an iteration
   * has run the global ratio is accepts over iterations run.
   */
  ghost predicate CounterAgrees(s: State)
  {
    s.nAccept < s.iter &&
    (s.iter > 1 ==> s.generalRatio == s.nAccept as real / (s.iter - 1) as real)
  }

  /** Sample rows are n_vars wide, and every stat table has the sample table's rows and its catalog width. */
  ghost predicate TablesSized(s: State)
  {
    (forall r :: 0 <= r < |s.samples| ==> |s.samples[r]| == |s.x|) &&
    forall st :: st in s.stats ==>
      |s.stats[st]| == |s.samples| &&
      forall r :: 0 <= r < |s.stats[st]| ==> |s.stats[st][r]| == Width(st, |s.x|)
  }

  /** The invariant every run keeps between iterations. */
  ghost predicate Consistent(s: State, cfg: Config, names: seq<StatName>)
  {
    Shaped(s, cfg, names) && WindowsAgree(s) && RatiosAgree(s) && CounterAgrees(s) && TablesSized(s)
  }

  lemma {:induction false} MulMonotone(a: nat, b: nat, c: nat)
    requires a <= b
    ensures a * c <= b * c
  {
  }

  lemma {:induction false} MulCancel(a: nat, b: nat, c: nat)
    requires a * c < b * c
    ensures a < b
  {
  }

  /** A save at iteration i < n writes row i // thin, which exists whenever the save test passes. */
  lemma {:induction false} SaveRowInBounds(n: nat, thin: nat, i: nat)
    requires thin > 0 && n % thin == 0 && i < n
    ensures i / thin < n / thin
  {
    var q, p := n / thin, i / thin;
    assert n == q * thin;
    assert p * thin <= i;
    MulCancel(p, q, thin);
  }

  /** The window shapes every phase of an iteration relies on. */
  ghost predicate Windowed(s: State)
  {
    |s.propWin| > 0 && W.Uniform(s.propWin, |s.x|) && |s.accWin| == |s.propWin| && W.Uniform(s.accWin, |s.x|)
  }

  /**
   * First phase of an iteration: roll both windows, mark the coordinates the
   * candidate changes in the propose window, and take or refuse the
   * candidate; an accepted move is also marked in the accept window.
   */
  function Advance(s: State, d: Draw): (r: State)
    requires Windowed(s) && Fits(d, |s.x|)
    ensures Windowed(r) && |r.x| == |s.x|
  {
    var width := |s.x|;
    var mask := W.Changed(s.x, d.xp);
    W.RollMarkShape(s.propWin, width, mask);
    W.RollMarkShape(s.accWin, width, mask);
    var propWin := W.Mark(W.Roll(s.propWin, width), mask);
    if d.accepted then
      s.(x := d.xp, loglike := d.loglike, logprior := d.logprior, nAccept := s.nAccept + 1,
         propWin := propWin, accWin := W.Mark(W.Roll(s.accWin, width), mask))
    else
      s.(propWin := propWin, accWin := W.Roll(s.accWin, width))
  }

  /**
   * Second phase: the column sums of both windows, the per-variable ratios
   * (entries without proposals taken from `unset`) and the global ratio
   * against the iteration counter.
   */
  function Refresh(s: State, unset: seq<real>): (r: State)
    requires Windowed(s) && |unset| == |s.x| && s.iter >= 1
    ensures |r.nProp| == |r.nAcc| == |r.ratios| == |s.x|
  {
    var width := |s.x|;
    var nProp := W.Counts(s.propWin, width);
    var nAcc := W.Counts(s.accWin, width);
    s.(nProp := nProp, nAcc := nAcc, ratios := W.Ratios(nAcc, nProp, unset),
       generalRatio := s.nAccept as real / s.iter as real)
  }

  /** Third phase: tune the proposal scales when the counter is a due multiple of the interval. */
  function MaybeTune(s: State, cfg: Config): (r: State)
    requires cfg.tuneInterval > 0 && |s.ratios| == |s.propS|
    ensures |r.propS| == |s.propS|
  {
    if TuneDue(s.iter, cfg) then s.(propS := Tuning.Tuned(s.propS, s.ratios)) else s
  }

  /**
   * Fourth phase: when the save test passes, copy the position into row
   * i // thin of the samples and record every registered stat in that row.
   */
  function MaybeSave(s: State, i: nat, cfg: Config, names: seq<StatName>): (r: State)
    requires ValidConfig(cfg) && i < cfg.n && |s.samples| == cfg.n / cfg.thin
    requires forall k :: 0 <= k < |names| ==> names[k] in s.stats && |s.stats[names[k]]| == |s.samples|
    ensures |r.samples| == |s.samples| && r.stats.Keys == s.stats.Keys
  {
    if SaveDue(cfg) then
      var row := i / cfg.thin;
      SaveRowInBounds(cfg.n, cfg.thin, i);
      s.(samples := s.samples[row := s.x],
         stats := Record(s.stats, names, row, Live(s.loglike, s.generalRatio, s.propS, s.ratios)))
    else s
  }

  /**
   * Iteration `i` of run, from state `s` with inputs `d`: roll both windows
   * and mark the changed coordinates, take or refuse the candidate, refresh
   * the column sums and ratios, maybe tune, maybe save, advance the counter.
   *
   * Written out in one piece rather than as the composition of `Advance`,
   * `Refresh`, `MaybeTune` and `MaybeSave`: the whole-run lemmas unfold
   * `Step` once per iteration of `Iterate`, and one flat definition keeps
   * those unfoldings small. `StepPhases` proves that it equals the
   * composition, which is what the class's loop body follows.
   */
  function Step(s: State, d: Draw, i: nat, cfg: Config, names: seq<StatName>): (r: State)
    requires Shaped(s, cfg, names) && Fits(d, |s.x|) && i < cfg.n
    ensures r.iter == s.iter + 1 && |r.x| == |s.x|
    ensures d.accepted ==>
              r.x == d.xp && r.loglike == d.loglike && r.logprior == d.logprior && r.nAccept == s.nAccept + 1
    ensures !d.accepted ==>
              r.x == s.x && r.loglike == s.loglike && r.logprior == s.logprior && r.nAccept == s.nAccept
  {
    var width := |s.x|;
    var mask := W.Changed(s.x, d.xp);
    W.RollMarkShape(s.propWin, width, mask);
    W.RollMarkShape(s.accWin, width, mask);
    var propWin := W.Mark(W.Roll(s.propWin, width), mask);
    var accWin := if d.accepted then W.Mark(W.Roll(s.accWin, width), mask) else W.Roll(s.accWin, width);
    var x := if d.accepted then d.xp else s.x;
    var loglike := if d.accepted then d.loglike else s.loglike;
    var logprior := if d.accepted then d.logprior else s.logprior;
    var nAccept := if d.accepted then s.nAccept + 1 else s.nAccept;
    var nProp := W.Counts(propWin, width);
    var nAcc := W.Counts(accWin, width);
    var ratios := W.Ratios(nAcc, nProp, d.unsetRatios);
    var generalRatio := nAccept as real / s.iter as real;
    var propS := if TuneDue(s.iter, cfg) then Tuning.Tuned(s.propS, ratios) else s.propS;
    var row := i / cfg.thin;
    var samples := if SaveDue(cfg) then SaveRowInBounds(cfg.n, cfg.thin, i); s.samples[row := x] else s.samples;
    var stats := if SaveDue(cfg)
                 then Record(s.stats, names, row, Live(loglike, generalRatio, propS, ratios))
                 else s.stats;
    State(x, loglike, logprior, nAccept, s.iter + 1, propWin, accWin, nProp, nAcc, ratios,
          generalRatio, propS, samples, stats)
  }

  /**
   * An iteration is its four phases run in order, followed by the counter
   * advancing: the staging the sampler's loop body follows.
   */
  lemma {:induction false} StepPhases(s: State, d: Draw, i: nat, cfg: Config, names: seq<StatName>)
    requires Shaped(s, cfg, names) && Fits(d, |s.x|) && i < cfg.n
    ensures Windowed(s)
    ensures var advanced := Advance(s, d);
            var refreshed := Refresh(advanced, d.unsetRatios);
            var tuned := MaybeTune(refreshed, cfg);
            Step(s, d, i, cfg, names) == MaybeSave(tuned, i, cfg, names).(iter := s.iter + 1)
  {
  }

  lemma {:induction false} StepShaped(s: State, d: Draw, i: nat, cfg: Config, names: seq<StatName>)
    requires Shaped(s, cfg, names) && Fits(d, |s.x|) && i < cfg.n
    ensures Shaped(Step(s, d, i, cfg, names), cfg, names)
  {
    var width := |s.x|;
    var mask := W.Changed(s.x, d.xp);
    W.RollMarkShape(s.propWin, width, mask);
    W.RollMarkShape(s.accWin, width, mask);
    if SaveDue(cfg) {
      SaveRowInBounds(cfg.n, cfg.thin, i);
    }
  }

  /** One iteration keeps accept within propose and the column sums in step with the windows. */
  lemma {:induction false} StepWindows(s: State, d: Draw, i: nat, cfg: Config, names: seq<StatName>)
    requires Shaped(s, cfg, names) && WindowsAgree(s) && Fits(d, |s.x|) && i < cfg.n
    ensures WindowsAgree(Step(s, d, i, cfg, names))
  {
    var width := |s.x|;
    var mask := W.Changed(s.x, d.xp);
    W.RollMarkShape(s.propWin, width, mask);
    W.RollMarkShape(s.accWin, width, mask);
    W.RollMarkSubsumed(s.accWin, s.propWin, width, mask, d.accepted);
  }

  /** One iteration recomputes every defined ratio from the new column sums. */
  lemma {:induction false} StepRatios(s: State, d: Draw, i: nat, cfg: Config, names: seq<StatName>)
    requires Shaped(s, cfg, names) && Fits(d, |s.x|) && i < cfg.n
    ensures RatiosAgree(Step(s, d, i, cfg, names))
  {
    var width := |s.x|;
    var mask := W.Changed(s.x, d.xp);
    W.RollMarkShape(s.propWin, width, mask);
    W.RollMarkShape(s.accWin, width, mask);
  }

  /** One iteration keeps the accept counter below the iteration counter and the global ratio exact. */
  lemma {:induction false} StepCounter(s: State, d: Draw, i: nat, cfg: Config, names: seq<StatName>)
    requires Shaped(s, cfg, names) && CounterAgrees(s) && Fits(d, |s.x|) && i < cfg.n
    ensures CounterAgrees(Step(s, d, i, cfg, names))
  {
  }

  /** One iteration writes rows of the right width into tables of unchanged size. */
  lemma {:induction false} StepTables(s: State, d: Draw, i: nat, cfg: Config, names: seq<StatName>)
    requires Shaped(s, cfg, names) && TablesSized(s) && Fits(d, |s.x|) && i < cfg.n
    ensures TablesSized(Step(s, d, i, cfg, names))
  {
    var r := Step(s, d, i, cfg, names);
    if SaveDue(cfg) {
      SaveRowInBounds(cfg.n, cfg.thin, i);
      RecordRows(s.stats, names, i / cfg.thin, Live(r.loglike, r.generalRatio, r.propS, r.ratios));
      forall st | st in r.stats
        ensures |r.stats[st]| == |r.samples|
        ensures forall j :: 0 <= j < |r.stats[st]| ==> |r.stats[st][j]| == Width(st, |r.x|)
      {
        assert st in s.stats;
      }
    }
  }

  /** Every iteration keeps the run invariant. */
  lemma {:induction false} StepConsistent(s: State, d: Draw, i: nat, cfg: Config, names: seq<StatName>)
    requires Consistent(s, cfg, names) && Fits(d, |s.x|) && i < cfg.n
    ensures Consistent(Step(s, d, i, cfg, names), cfg, names)
  {
    StepShaped(s, d, i, cfg, names);
    StepWindows(s, d, i, cfg, names);
    StepRatios(s, d, i, cfg, names);
    StepCounter(s, d, i, cfg, names);
    StepTables(s, d, i, cfg, names);
  }

  /** The state after running the iterations `draws` from `init` (iteration k gets index k). */
  ghost function Iterate(init: State, draws: seq<Draw>, cfg: Config, names: seq<StatName>): (r: State)
    requires Shaped(init, cfg, names) && |draws| <= cfg.n && AllFit(draws, |init.x|)
    ensures Shaped(r, cfg, names)
    ensures r.iter == init.iter + |draws| && |r.x| == |init.x|
    decreases |draws|
  {
    if |draws| == 0 then init
    else
      var k := |draws| - 1;
      var s := Iterate(init, draws[..k], cfg, names);
      StepShaped(s, draws[k], k, cfg, names);
      Step(s, draws[k], k, cfg, names)
  }

  /** The invariant holds after any number of iterations. */
  lemma {:induction false} IterateConsistent(init: State, draws: seq<Draw>, cfg: Config, names: seq<StatName>)
    requires Consistent(init, cfg, names) && |draws| <= cfg.n && AllFit(draws, |init.x|)
    ensures Consistent(Iterate(init, draws, cfg, names), cfg, names)
    decreases |draws|
  {
    if |draws| > 0 {
      var k := |draws| - 1;
      IterateConsistent(init, draws[..k], cfg, names);
      StepConsistent(Iterate(init, draws[..k], cfg, names), draws[k], k, cfg, names);
    }
  }

  // ---------------------------------------------------------------------------
  // Properties of the invariant and of whole runs

  /** The window sums are all-zero on a freshly allocated window. */
  lemma {:induction false} CountEmpty(depth: nat, width: nat, c: nat)
    requires c < width
    ensures W.Count(W.Empty(depth, width), c) == 0
    decreases depth
  {
    if depth > 0 {
      assert W.Empty(depth, width)[1..] == W.Empty(depth - 1, width);
      CountEmpty(depth - 1, width, c);
    }
  }

  /**
   * The state run starts from satisfies the invariant, provided the stats
   * dictionary holds only registered names and prop_S fits x0.
   */
  lemma {:induction false} InitConsistent(x0: seq<real>, loglike0: real, logprior0: real, propS: seq<real>, generalRatio: real,
                       stats: map<StatName, seq<seq<real>>>, cfg: Config, names: seq<StatName>)
    requires ValidConfig(cfg) && |propS| == |x0|
    requires forall st :: st in stats ==> st in names
    ensures Consistent(Init(x0, loglike0, logprior0, propS, generalRatio, stats, cfg, names), cfg, names)
  {
    var s := Init(x0, loglike0, logprior0, propS, generalRatio, stats, cfg, names);
    var width := |x0|;
    AllocateTables(stats, names, cfg.n / cfg.thin, width);
    forall c | 0 <= c < width
      ensures W.Count(s.propWin, c) == 0
    {
      CountEmpty(cfg.tuneInterval, width, c);
    }
    assert s.nProp == W.Counts(s.propWin, width);
    assert s.nAcc == W.Counts(s.accWin, width);
    forall st | st in s.stats
      ensures |s.stats[st]| == cfg.n / cfg.thin
      ensures forall r :: 0 <= r < cfg.n / cfg.thin ==> |s.stats[st][r]| == Width(st, width)
    {
      assert st in names;
    }
  }

  /**
   * What the invariant guarantees: for each variable, accepted count <=
   * proposed count <= window depth; ratios over a nonzero proposal count lie
   * in [0, 1]; the accept counter stays below the iteration counter and the
   * global ratio lies in [0, 1].
   */
  lemma {:induction false} ConsistentBounds(s: State, cfg: Config, names: seq<StatName>)
    requires Consistent(s, cfg, names)
    ensures forall c :: 0 <= c < |s.x| ==> s.nAcc[c] <= s.nProp[c] <= cfg.tuneInterval
    ensures forall c :: 0 <= c < |s.x| && s.nProp[c] != 0 ==> 0.0 <= s.ratios[c] <= 1.0
    ensures s.nAccept < s.iter
    ensures s.iter > 1 ==> 0.0 <= s.generalRatio <= 1.0
  {
    var width := |s.x|;
    forall c | 0 <= c < width
      ensures s.nAcc[c] <= s.nProp[c] <= cfg.tuneInterval
    {
      W.SubsumedCounts(s.accWin, s.propWin, width, c);
      W.CountAtMostDepth(s.propWin, c);
    }
    forall c | 0 <= c < width && s.nProp[c] != 0
      ensures 0.0 <= s.ratios[c] <= 1.0
    {
      W.SubsumedCounts(s.accWin, s.propWin, width, c);
      W.RatioInUnit(s.nAcc, s.nProp, Zeros(width), c);
    }
    if s.iter > 1 {
      var a, t := s.nAccept as real, (s.iter - 1) as real;
      assert a <= t;
      assert a / t * t == a;
    }
  }

  /** Number of accepted draws. */
  function AcceptedCount(draws: seq<Draw>): (k: nat)
    ensures k <= |draws|
    decreases |draws|
  {
    if |draws| == 0 then 0
    else AcceptedCount(draws[..|draws| - 1]) + (if draws[|draws| - 1].accepted then 1 else 0)
  }

  /** The accept counter counts exactly the accepted iterations. */
  lemma {:induction false} AcceptCounter(init: State, draws: seq<Draw>, cfg: Config, names: seq<StatName>)
    requires Shaped(init, cfg, names) && |draws| <= cfg.n && AllFit(draws, |init.x|)
    ensures Iterate(init, draws, cfg, names).nAccept == init.nAccept + AcceptedCount(draws)
    decreases |draws|
  {
    if |draws| > 0 {
      AcceptCounter(init, draws[..|draws| - 1], cfg, names);
    }
  }

  /**
   * A whole run of run(x0, ...): initialize_arrays and the set-up, then one
   * iteration per draw. `propS`, `generalRatio` and `stats` are the values the
   * object carries into the run.
   */
  ghost function Run(x0: seq<real>, loglike0: real, logprior0: real, propS: seq<real>, generalRatio: real,
                     stats: map<StatName, seq<seq<real>>>, cfg: Config, names: seq<StatName>,
                     draws: seq<Draw>): (r: State)
    requires ValidConfig(cfg) && |propS| == |x0| && (forall st :: st in stats ==> st in names)
    requires |draws| <= cfg.n && AllFit(draws, |x0|)
    ensures Consistent(r, cfg, names) && |r.x| == |x0|
  {
    var init := Init(x0, loglike0, logprior0, propS, generalRatio, stats, cfg, names);
    InitConsistent(x0, loglike0, logprior0, propS, generalRatio, stats, cfg, names);
    IterateConsistent(init, draws, cfg, names);
    Iterate(init, draws, cfg, names)
  }

  /**
   * After a run of n >= 1 iterations the counter _current_iter is n + 1 and
   * the global ratio is the number of accepted iterations over n, in [0, 1].
   */
  lemma {:induction false} RunGlobalRatio(x0: seq<real>, loglike0: real, logprior0: real, propS: seq<real>, generalRatio: real,
                       stats: map<StatName, seq<seq<real>>>, cfg: Config, names: seq<StatName>, draws: seq<Draw>)
    requires ValidConfig(cfg) && |propS| == |x0| && (forall st :: st in stats ==> st in names)
    requires |draws| == cfg.n >= 1 && AllFit(draws, |x0|)
    ensures var r := Run(x0, loglike0, logprior0, propS, generalRatio, stats, cfg, names, draws);
            r.iter == cfg.n + 1 &&
            r.generalRatio == AcceptedCount(draws) as real / cfg.n as real &&
            0.0 <= r.generalRatio <= 1.0
  {
    var init := Init(x0, loglike0, logprior0, propS, generalRatio, stats, cfg, names);
    InitConsistent(x0, loglike0, logprior0, propS, generalRatio, stats, cfg, names);
    var r := Run(x0, loglike0, logprior0, propS, generalRatio, stats, cfg, names, draws);
    assert r == Iterate(init, draws, cfg, names);
    AcceptCounter(init, draws, cfg, names);
    ConsistentBounds(r, cfg, names);
    CounterRatio(r, AcceptedCount(draws), cfg.n);
  }

  /** Where the counters say a accepts in n >= 1 iterations, the global ratio is a / n. */
  lemma {:induction false} CounterRatio(s: State, a: nat, n: nat)
    requires CounterAgrees(s) && s.nAccept == a && s.iter == n + 1 && n >= 1
    ensures s.generalRatio == a as real / n as real
  {
    assert (s.iter - 1) as real == n as real;
  }

  /**
   * Accept within propose, column sums bounded by the window depth, and every
   * ratio that was computed in [0, 1].
   */
  ghost predicate Bounded(s: State, depth: nat)
  {
    |s.nProp| == |s.x| && |s.nAcc| == |s.x| && |s.ratios| == |s.x| &&
    W.Subsumed(s.accWin, s.propWin, |s.x|) &&
    (forall c :: 0 <= c < |s.x| ==> s.nAcc[c] <= s.nProp[c] <= depth) &&
    (forall c :: 0 <= c < |s.x| && s.nProp[c] != 0 ==> 0.0 <= s.ratios[c] <= 1.0)
  }

  /**
   * What a complete run of n iterations leaves behind: the counter at n + 1,
   * accept within propose, column sums bounded by the window depth, every
   * defined ratio in [0, 1], and the global ratio the accepted fraction.
   */
  lemma {:induction false} RunBounds(x0: seq<real>, loglike0: real, logprior0: real, propS: seq<real>, generalRatio: real,
                  stats: map<StatName, seq<seq<real>>>, cfg: Config, names: seq<StatName>, draws: seq<Draw>)
    requires ValidConfig(cfg) && |propS| == |x0| && (forall st :: st in stats ==> st in names)
    requires |draws| == cfg.n && AllFit(draws, |x0|)
    ensures var r := Run(x0, loglike0, logprior0, propS, generalRatio, stats, cfg, names, draws);
            r.iter == cfg.n + 1 && Bounded(r, cfg.tuneInterval) &&
            (cfg.n >= 1 ==> r.generalRatio == AcceptedCount(draws) as real / cfg.n as real)
  {
    ConsistentBounds(Run(x0, loglike0, logprior0, propS, generalRatio, stats, cfg, names, draws), cfg, names);
    if cfg.n >= 1 {
      RunGlobalRatio(x0, loglike0, logprior0, propS, generalRatio, stats, cfg, names, draws);
    }
  }

  /**
   * The row an iteration pushes onto the propose window (`accept` false) or
   * the accept window (`accept` true): the changed coordinates, or nothing
   * for the accept window of a refused move.
   */
  function Pushed(x: seq<real>, d: Draw, accept: bool): (row: seq<bool>)
    requires |d.xp| == |x|
    ensures |row| == |x|
  {
    if accept && !d.accepted then W.Falses(|x|) else W.Changed(x, d.xp)
  }

  /** The propose window (`accept` false) or the accept window (`accept` true) of a state. */
  function Win(s: State, accept: bool): seq<seq<bool>>
  {
    if accept then s.accWin else s.propWin
  }

  /** The propose or accept window before each iteration and after the last. */
  ghost function WindowTrace(init: State, draws: seq<Draw>, cfg: Config, names: seq<StatName>, accept: bool)
    : (wins: seq<seq<seq<bool>>>)
    requires Shaped(init, cfg, names) && |draws| <= cfg.n && AllFit(draws, |init.x|)
    ensures |wins| == |draws| + 1
  {
    seq(|draws| + 1, k requires 0 <= k <= |draws| =>
      Win(Iterate(init, draws[..k], cfg, names), accept))
  }

  /** The row each iteration pushes onto that window. */
  ghost function PushedRows(init: State, draws: seq<Draw>, cfg: Config, names: seq<StatName>, accept: bool)
    : (rows: seq<seq<bool>>)
    requires Shaped(init, cfg, names) && |draws| <= cfg.n && AllFit(draws, |init.x|)
    ensures |rows| == |draws|
  {
    seq(|draws|, k requires 0 <= k < |draws| => Pushed(Iterate(init, draws[..k], cfg, names).x, draws[k], accept))
  }

  /** Iteration k shifts each window by one row and pushes its row on top. */
  lemma {:induction false} IterateRolls(init: State, draws: seq<Draw>, cfg: Config, names: seq<StatName>, k: nat, accept: bool)
    requires Shaped(init, cfg, names) && |draws| <= cfg.n && AllFit(draws, |init.x|) && k < |draws|
    ensures var prev, next := Iterate(init, draws[..k], cfg, names), Iterate(init, draws[..k + 1], cfg, names);
            W.Shifts(Win(prev, accept), Win(next, accept),
                     Pushed(prev.x, draws[k], accept))
  {
    var prev := Iterate(init, draws[..k], cfg, names);
    var mask := W.Changed(prev.x, draws[k].xp);
    assert draws[..k + 1][..k] == draws[..k];
    assert Iterate(init, draws[..k + 1], cfg, names) == Step(prev, draws[k], k, cfg, names);
    W.RollMarkShifts(prev.propWin, |init.x|, mask);
    W.RollMarkShifts(prev.accWin, |init.x|, mask);
  }

  /** Every iteration of the trace is one shift of the window. */
  lemma {:induction false} TraceShifts(init: State, draws: seq<Draw>, cfg: Config, names: seq<StatName>, accept: bool)
    requires Shaped(init, cfg, names) && |draws| <= cfg.n && AllFit(draws, |init.x|)
    ensures W.ShiftRun(WindowTrace(init, draws, cfg, names, accept), PushedRows(init, draws, cfg, names, accept))
  {
    var wins, rows := WindowTrace(init, draws, cfg, names, accept), PushedRows(init, draws, cfg, names, accept);
    forall k | 0 <= k < |draws|
      ensures W.Shifts(wins[k], wins[k + 1], rows[k])
    {
      IterateRolls(init, draws, cfg, names, k, accept);
    }
    W.ShiftRunOf(wins, rows);
  }

  /** The trace starts at the initial window and ends at the window after all iterations. */
  lemma {:induction false} TraceEnds(init: State, draws: seq<Draw>, cfg: Config, names: seq<StatName>, accept: bool)
    requires Shaped(init, cfg, names) && |draws| <= cfg.n && AllFit(draws, |init.x|)
    ensures var wins, s := WindowTrace(init, draws, cfg, names, accept), Iterate(init, draws, cfg, names);
            wins[0] == Win(init, accept) && wins[|draws|] == Win(s, accept)
  {
    assert draws[..0] == [];
    assert draws[..|draws|] == draws;
  }

  /** Row r of the last window of the trace is the row pushed r iterations before the end. */
  lemma {:induction false} TraceRecentRows(init: State, draws: seq<Draw>, cfg: Config, names: seq<StatName>, r: nat, accept: bool)
    requires Shaped(init, cfg, names) && |draws| <= cfg.n && AllFit(draws, |init.x|)
    requires r < |draws|
    ensures var wins, rows := WindowTrace(init, draws, cfg, names, accept), PushedRows(init, draws, cfg, names, accept);
            r < |wins[|draws|]| ==> wins[|draws|][r] == rows[|draws| - 1 - r]
  {
    var wins, rows := WindowTrace(init, draws, cfg, names, accept), PushedRows(init, draws, cfg, names, accept);
    if r < |wins[|draws|]| {
      TraceShifts(init, draws, cfg, names, accept);
      assert |rows| == |draws|;
      W.ShiftLast(wins, rows, r);
    }
  }

  /** The same row, read off as the mask of iteration |draws| - 1 - r. */
  lemma {:induction false} TraceRecent(init: State, draws: seq<Draw>, cfg: Config, names: seq<StatName>, r: nat, accept: bool)
    requires Shaped(init, cfg, names) && |draws| <= cfg.n && AllFit(draws, |init.x|)
    requires r < |draws|
    ensures var wins, j := WindowTrace(init, draws, cfg, names, accept), |draws| - 1 - r;
            r < |wins[|draws|]| ==> wins[|draws|][r] == Pushed(Iterate(init, draws[..j], cfg, names).x, draws[j], accept)
  {
    TraceRecentRows(init, draws, cfg, names, r, accept);
  }

  /** Row r of one window after at least r + 1 iterations: the row iteration |draws| - 1 - r pushed. */
  lemma {:induction false} RecentRow(init: State, draws: seq<Draw>, cfg: Config, names: seq<StatName>, r: nat, accept: bool)
    requires Shaped(init, cfg, names) && |draws| <= cfg.n && AllFit(draws, |init.x|)
    requires r < cfg.tuneInterval && r < |draws|
    ensures var s, j := Iterate(init, draws, cfg, names), |draws| - 1 - r;
            r < |Win(s, accept)| &&
            Win(s, accept)[r] == Pushed(Iterate(init, draws[..j], cfg, names).x, draws[j], accept)
  {
    TraceRecent(init, draws, cfg, names, r, accept);
    TraceEnds(init, draws, cfg, names, accept);
  }

  /** Row r >= |draws| of the last window of the trace is a row of the first, moved down by |draws|. */
  lemma {:induction false} TraceOlder(init: State, draws: seq<Draw>, cfg: Config, names: seq<StatName>, r: nat, accept: bool)
    requires Shaped(init, cfg, names) && |draws| <= cfg.n && AllFit(draws, |init.x|)
    requires r >= |draws|
    ensures var wins := WindowTrace(init, draws, cfg, names, accept);
            r < |wins[|draws|]| ==> r - |draws| < |wins[0]| && wins[|draws|][r] == wins[0][r - |draws|]
  {
    var wins, rows := WindowTrace(init, draws, cfg, names, accept), PushedRows(init, draws, cfg, names, accept);
    if r < |wins[|draws|]| {
      TraceShifts(init, draws, cfg, names, accept);
      assert |rows| == |draws|;
      W.ShiftFirst(wins, rows, r);
    }
  }

  /** Row r of one window after at most r iterations: a starting row moved down by |draws|. */
  lemma {:induction false} OlderRow(init: State, draws: seq<Draw>, cfg: Config, names: seq<StatName>, r: nat, accept: bool)
    requires Shaped(init, cfg, names) && |draws| <= cfg.n && AllFit(draws, |init.x|)
    requires r < cfg.tuneInterval && r >= |draws|
    ensures var s := Iterate(init, draws, cfg, names);
            r < |Win(s, accept)| && Win(s, accept)[r] == Win(init, accept)[r - |draws|]
  {
    TraceOlder(init, draws, cfg, names, r, accept);
    TraceEnds(init, draws, cfg, names, accept);
  }

  /**
   * The windows hold exactly the last tuneInterval iterations, newest in row
   * 0: row r < |draws| is the changed-coordinate mask of iteration
   * |draws| - 1 - r (in the accept window only if that iteration accepted);
   * deeper rows are the starting rows moved down.
   */
  lemma {:induction false} WindowRows(init: State, draws: seq<Draw>, cfg: Config, names: seq<StatName>, r: nat)
    requires Shaped(init, cfg, names) && |draws| <= cfg.n && AllFit(draws, |init.x|)
    requires r < cfg.tuneInterval
    ensures var s := Iterate(init, draws, cfg, names);
            if r < |draws| then
              var j := |draws| - 1 - r;
              var mask := W.Changed(Iterate(init, draws[..j], cfg, names).x, draws[j].xp);
              s.propWin[r] == mask &&
              s.accWin[r] == (if draws[j].accepted then mask else W.Falses(|init.x|))
            else
              s.propWin[r] == init.propWin[r - |draws|] && s.accWin[r] == init.accWin[r - |draws|]
  {
    if r < |draws| {
      RecentRow(init, draws, cfg, names, r, false);
      RecentRow(init, draws, cfg, names, r, true);
    } else {
      OlderRow(init, draws, cfg, names, r, false);
      OlderRow(init, draws, cfg, names, r, true);
    }
  }

  /** Without a save test that passes, a run records nothing. */
  lemma {:induction false} NoSaveKeepsTables(init: State, draws: seq<Draw>, cfg: Config, names: seq<StatName>)
    requires Shaped(init, cfg, names) && |draws| <= cfg.n && AllFit(draws, |init.x|)
    requires !SaveDue(cfg)
    ensures Iterate(init, draws, cfg, names).samples == init.samples
    ensures Iterate(init, draws, cfg, names).stats == init.stats
    decreases |draws|
  {
    if |draws| > 0 {
      NoSaveKeepsTables(init, draws[..|draws| - 1], cfg, names);
    }
  }

  /** The last iteration index below `count` whose save goes to row `row`, or -1 if there is none. */
  function LastInBlock(row: nat, thin: nat, count: nat): (j: int)
    requires thin > 0
    ensures -1 <= j < count
    ensures j >= 0 ==> j / thin == row
    decreases count
  {
    if count == 0 then -1
    else if (count - 1) / thin == row then count - 1
    else LastInBlock(row, thin, count - 1)
  }

  /** No index after the block's last one, and below `count`, saves to the same row. */
  lemma {:induction false} LastInBlockIsLast(row: nat, thin: nat, count: nat, i: nat)
    requires thin > 0 && LastInBlock(row, thin, count) < i < count
    ensures i / thin != row
    decreases count
  {
    if (count - 1) / thin != row && i < count - 1 {
      LastInBlockIsLast(row, thin, count - 1, i);
    }
  }

  /** Once a block of thin indices is complete, its last index is the block's last member. */
  lemma {:induction false} LastInCompleteBlock(row: nat, thin: nat, count: nat)
    requires thin > 0 && row * thin + thin <= count
    ensures LastInBlock(row, thin, count) == row * thin + thin - 1
    decreases count
  {
    var last := row * thin + thin - 1;
    if count - 1 == last {
      RowOfIndex(last, thin, row);
      assert (count - 1) / thin == row;
    } else {
      RowOfIndex(count - 1, thin, row);
      assert (count - 1) / thin != row;
      LastInCompleteBlock(row, thin, count - 1);
    }
  }

  /** Row `row` of an n // thin-row table is the block of thin indices ending at row * thin + thin - 1 < n. */
  lemma {:induction false} BlockEnd(row: nat, thin: nat, n: nat)
    requires thin > 0 && row < n / thin
    ensures row * thin + thin <= n
    ensures LastInBlock(row, thin, n) == row * thin + thin - 1
  {
    RowOfIndex(n, thin, row);
    LastInCompleteBlock(row, thin, n);
  }

  /** Division facts for the save index. */
  lemma {:induction false} RowOfIndex(k: nat, thin: nat, row: nat)
    requires thin > 0
    ensures row == k / thin <==> row * thin <= k < row * thin + thin
    ensures row < k / thin ==> row * thin + thin <= k
    ensures row > k / thin ==> row * thin > k
  {
    var q := k / thin;
    assert q * thin <= k < q * thin + thin;
    if row < q {
      MulMonotone(row + 1, q, thin);
    } else if row > q {
      MulMonotone(q + 1, row, thin);
    }
  }

  /** A saving iteration writes its new position into row i // thin and no other row. */
  lemma {:induction false} StepSamples(s: State, d: Draw, i: nat, cfg: Config, names: seq<StatName>)
    requires Shaped(s, cfg, names) && Fits(d, |s.x|) && i < cfg.n && SaveDue(cfg)
    ensures var r := Step(s, d, i, cfg, names);
            i / cfg.thin < |s.samples| && r.samples == s.samples[i / cfg.thin := r.x]
  {
    SaveRowInBounds(cfg.n, cfg.thin, i);
  }

  /** StepSamples for iteration k of a sequence of iterations. */
  lemma {:induction false} IterateSaves(init: State, draws: seq<Draw>, cfg: Config, names: seq<StatName>, k: nat)
    requires Shaped(init, cfg, names) && |draws| <= cfg.n && AllFit(draws, |init.x|) && SaveDue(cfg)
    requires k < |draws|
    ensures Writes(Iterate(init, draws[..k], cfg, names).samples, Iterate(init, draws[..k + 1], cfg, names).samples,
                   k, cfg.thin, Iterate(init, draws[..k + 1], cfg, names).x)
  {
    var prev := Iterate(init, draws[..k], cfg, names);
    assert draws[..k + 1][..k] == draws[..k];
    assert Iterate(init, draws[..k + 1], cfg, names) == Step(prev, draws[k], k, cfg, names);
    StepSamples(prev, draws[k], k, cfg, names);
  }

  /** `after` is `before` with row k // thin (which exists) overwritten by `x`. */
  ghost predicate Writes(before: seq<seq<real>>, after: seq<seq<real>>, k: nat, thin: nat, x: seq<real>)
    requires thin > 0
  {
    k / thin < |before| && after == before[k / thin := x]
  }

  /**
   * Writing position k into row k // thin, for k = 0, 1, ... in turn, leaves
   * in each row the last position written to it, or its starting content.
   */
  lemma {:induction false} RowTrace(tables: seq<seq<seq<real>>>, xs: seq<seq<real>>, thin: nat, row: nat)
    requires thin > 0 && |tables| == |xs| + 1 && row < |tables[0]|
    requires forall k :: 0 <= k < |xs| ==> Writes(tables[k], tables[k + 1], k, thin, xs[k])
    ensures row < |tables[|xs|]|
    ensures var j := LastInBlock(row, thin, |xs|);
            tables[|xs|][row] == if j < 0 then tables[0][row] else xs[j]
    decreases |xs|
  {
    if |xs| > 0 {
      var k := |xs| - 1;
      RowTrace(tables[..k + 1], xs[..k], thin, row);
      assert Writes(tables[k], tables[|xs|], k, thin, xs[k]);
    }
  }


  /** The sample tables before each iteration and after the last: entry k is after k iterations. */
  ghost function SampleTrace(init: State, draws: seq<Draw>, cfg: Config, names: seq<StatName>)
    : (tables: seq<seq<seq<real>>>)
    requires Shaped(init, cfg, names) && |draws| <= cfg.n && AllFit(draws, |init.x|)
    ensures |tables| == |draws| + 1
  {
    seq(|draws| + 1, k requires 0 <= k <= |draws| => Iterate(init, draws[..k], cfg, names).samples)
  }

  /** The position after each iteration: entry k is after iteration k. */
  ghost function PositionTrace(init: State, draws: seq<Draw>, cfg: Config, names: seq<StatName>)
    : (xs: seq<seq<real>>)
    requires Shaped(init, cfg, names) && |draws| <= cfg.n && AllFit(draws, |init.x|)
    ensures |xs| == |draws|
  {
    seq(|draws|, k requires 0 <= k < |draws| => Iterate(init, draws[..k + 1], cfg, names).x)
  }

  /** With the save test passing, iteration k turns table k of the trace into table k + 1 by one row write. */
  lemma {:induction false} TraceWrites(init: State, draws: seq<Draw>, cfg: Config, names: seq<StatName>)
    requires Shaped(init, cfg, names) && |draws| <= cfg.n && AllFit(draws, |init.x|) && SaveDue(cfg)
    ensures var tables, xs := SampleTrace(init, draws, cfg, names), PositionTrace(init, draws, cfg, names);
            forall k :: 0 <= k < |draws| ==> Writes(tables[k], tables[k + 1], k, cfg.thin, xs[k])
  {
    forall k | 0 <= k < |draws|
      ensures Writes(Iterate(init, draws[..k], cfg, names).samples, Iterate(init, draws[..k + 1], cfg, names).samples,
                     k, cfg.thin, Iterate(init, draws[..k + 1], cfg, names).x)
    {
      IterateSaves(init, draws, cfg, names, k);
    }
  }

  /**
   * When the save test passes, every iteration i writes its new position
   * into row i // thin. So a row holds the position after the last
   * iteration that mapped to it, or its starting content if none has yet.
   */
  lemma {:induction false} SampleRows(init: State, draws: seq<Draw>, cfg: Config, names: seq<StatName>, row: nat)
    requires Shaped(init, cfg, names) && |draws| <= cfg.n && AllFit(draws, |init.x|)
    requires SaveDue(cfg) && row < cfg.n / cfg.thin
    ensures var s := Iterate(init, draws, cfg, names);
            var j := LastInBlock(row, cfg.thin, |draws|);
            s.samples[row] == if j < 0 then init.samples[row] else Iterate(init, draws[..j + 1], cfg, names).x
    decreases |draws|
  {
    TraceWrites(init, draws, cfg, names);
    var tables, xs := SampleTrace(init, draws, cfg, names), PositionTrace(init, draws, cfg, names);
    assert draws[..0] == [];
    RowTrace(tables, xs, cfg.thin, row);
    assert draws[..|draws|] == draws;
  }

  /**
   * For a whole run whose save test passes, row r of the sample table holds
   * the position after iteration r * thin + thin - 1, the last iteration of
   * its block of thin.
   */
  lemma {:induction false} RunSampleRows(init: State, draws: seq<Draw>, cfg: Config, names: seq<StatName>, row: nat)
    requires Shaped(init, cfg, names) && |draws| == cfg.n && AllFit(draws, |init.x|)
    requires SaveDue(cfg) && row < cfg.n / cfg.thin
    ensures row * cfg.thin + cfg.thin <= cfg.n
    ensures Iterate(init, draws, cfg, names).samples[row]
         == Iterate(init, draws[..row * cfg.thin + cfg.thin], cfg, names).x
  {
    BlockEnd(row, cfg.thin, cfg.n);
    SampleRows(init, draws, cfg, names, row);
  }

  /** The chain-state fields a stat can name, read from state `s`. */
  function LiveOf(s: State): (live: Live)
    ensures live.loglike == s.loglike && live.generalRatio == s.generalRatio
    ensures live.propS == s.propS && live.ratios == s.ratios
  {
    Live(s.loglike, s.generalRatio, s.propS, s.ratios)
  }

  /**
   * A saving iteration writes, for every registered stat, the field value
   * after the iteration into row i // thin of its table, and changes no other
   * row and no other table.
   */
  lemma {:induction false} StepStats(s: State, d: Draw, i: nat, cfg: Config, names: seq<StatName>)
    requires Shaped(s, cfg, names) && Fits(d, |s.x|) && i < cfg.n && SaveDue(cfg)
    ensures i / cfg.thin < |s.samples|
    ensures forall st :: st in names ==> st in s.stats && i / cfg.thin < |s.stats[st]|
    ensures var r, row := Step(s, d, i, cfg, names), i / cfg.thin;
            r.stats.Keys == s.stats.Keys &&
            forall st :: st in s.stats ==>
              r.stats[st] == if st in names then s.stats[st][row := StatValue(st, LiveOf(r))] else s.stats[st]
  {
    var r := Step(s, d, i, cfg, names);
    SaveRowInBounds(cfg.n, cfg.thin, i);
    assert r.stats == Record(s.stats, names, i / cfg.thin, LiveOf(r));
    RecordRows(s.stats, names, i / cfg.thin, LiveOf(r));
  }

  /** StepStats for iteration k of a sequence of iterations, read on the table of one registered stat. */
  lemma {:induction false} IterateRecords(init: State, draws: seq<Draw>, cfg: Config, names: seq<StatName>,
                                          st: StatName, k: nat)
    requires Shaped(init, cfg, names) && |draws| <= cfg.n && AllFit(draws, |init.x|) && SaveDue(cfg)
    requires st in names && k < |draws|
    ensures var prev, next := Iterate(init, draws[..k], cfg, names), Iterate(init, draws[..k + 1], cfg, names);
            st in prev.stats && st in next.stats &&
            Writes(prev.stats[st], next.stats[st], k, cfg.thin, StatValue(st, LiveOf(next)))
  {
    var prev := Iterate(init, draws[..k], cfg, names);
    assert draws[..k + 1][..k] == draws[..k];
    assert Iterate(init, draws[..k + 1], cfg, names) == Step(prev, draws[k], k, cfg, names);
    StepStats(prev, draws[k], k, cfg, names);
    SaveRowInBounds(cfg.n, cfg.thin, k);
  }

  /** The table of registered stat `st` before each iteration and after the last. */
  ghost function StatTrace(init: State, draws: seq<Draw>, cfg: Config, names: seq<StatName>, st: StatName)
    : (tables: seq<seq<seq<real>>>)
    requires Shaped(init, cfg, names) && |draws| <= cfg.n && AllFit(draws, |init.x|) && st in names
    ensures |tables| == |draws| + 1
  {
    seq(|draws| + 1, k requires 0 <= k <= |draws| => Iterate(init, draws[..k], cfg, names).stats[st])
  }

  /** The value stat `st` takes after each iteration: entry k is after iteration k. */
  ghost function StatValueTrace(init: State, draws: seq<Draw>, cfg: Config, names: seq<StatName>, st: StatName)
    : (vs: seq<seq<real>>)
    requires Shaped(init, cfg, names) && |draws| <= cfg.n && AllFit(draws, |init.x|)
    ensures |vs| == |draws|
  {
    seq(|draws|, k requires 0 <= k < |draws| => StatValue(st, LiveOf(Iterate(init, draws[..k + 1], cfg, names))))
  }

  /** Step k of a stat's trace writes entry k of its value trace. */
  lemma {:induction false} TraceRecordAt(init: State, draws: seq<Draw>, cfg: Config, names: seq<StatName>,
                                         st: StatName, k: nat)
    requires Shaped(init, cfg, names) && |draws| <= cfg.n && AllFit(draws, |init.x|) && SaveDue(cfg)
    requires st in names && k < |draws|
    ensures var tables, vs := StatTrace(init, draws, cfg, names, st), StatValueTrace(init, draws, cfg, names, st);
            Writes(tables[k], tables[k + 1], k, cfg.thin, vs[k])
  {
    IterateRecords(init, draws, cfg, names, st, k);
  }

  /** With the save test passing, iteration k turns table k of a stat's trace into table k + 1 by one row write. */
  lemma {:induction false} TraceRecords(init: State, draws: seq<Draw>, cfg: Config, names: seq<StatName>, st: StatName)
    requires Shaped(init, cfg, names) && |draws| <= cfg.n && AllFit(draws, |init.x|) && SaveDue(cfg)
    requires st in names
    ensures var tables, vs := StatTrace(init, draws, cfg, names, st), StatValueTrace(init, draws, cfg, names, st);
            forall k :: 0 <= k < |draws| ==> Writes(tables[k], tables[k + 1], k, cfg.thin, vs[k])
  {
    forall k | 0 <= k < |draws|
      ensures Writes(StatTrace(init, draws, cfg, names, st)[k], StatTrace(init, draws, cfg, names, st)[k + 1],
                     k, cfg.thin, StatValueTrace(init, draws, cfg, names, st)[k])
    {
      TraceRecordAt(init, draws, cfg, names, st, k);
    }
  }

  /** On the traces: once some iteration has saved to row `row`, the row holds the value of the last one that did. */
  lemma {:induction false} StatTraceRows(init: State, draws: seq<Draw>, cfg: Config, names: seq<StatName>,
                                         st: StatName, row: nat, last: nat)
    requires Shaped(init, cfg, names) && |draws| <= cfg.n && AllFit(draws, |init.x|)
    requires SaveDue(cfg) && st in names && row < cfg.n / cfg.thin
    requires last > 0 && last == LastInBlock(row, cfg.thin, |draws|) + 1
    ensures var tables, vs := StatTrace(init, draws, cfg, names, st), StatValueTrace(init, draws, cfg, names, st);
            row < |tables[|draws|]| && tables[|draws|][row] == vs[last - 1]
  {
    TraceRecords(init, draws, cfg, names, st);
    var tables, vs := StatTrace(init, draws, cfg, names, st), StatValueTrace(init, draws, cfg, names, st);
    assert draws[..0] == [];
    RowTrace(tables, vs, cfg.thin, row);
  }

  /** The last table of a stat's trace is the run's table, and entry j of its value trace is the value after j + 1 iterations. */
  lemma {:induction false} StatTraceAt(init: State, draws: seq<Draw>, cfg: Config, names: seq<StatName>, st: StatName,
                                       j: nat)
    requires Shaped(init, cfg, names) && |draws| <= cfg.n && AllFit(draws, |init.x|) && st in names && j < |draws|
    ensures StatTrace(init, draws, cfg, names, st)[|draws|] == Iterate(init, draws, cfg, names).stats[st]
    ensures StatValueTrace(init, draws, cfg, names, st)[j]
         == StatValue(st, LiveOf(Iterate(init, draws[..j + 1], cfg, names)))
  {
    assert draws[..|draws|] == draws;
  }

  /** Where some iteration has saved to row `row`, the row holds the statistic after the last of them. */
  lemma {:induction false} StatRowAt(init: State, draws: seq<Draw>, cfg: Config, names: seq<StatName>, st: StatName,
                                     row: nat, last: nat)
    requires Shaped(init, cfg, names) && |draws| <= cfg.n && AllFit(draws, |init.x|)
    requires SaveDue(cfg) && st in names && row < cfg.n / cfg.thin
    requires last > 0 && last == LastInBlock(row, cfg.thin, |draws|) + 1
    ensures var s := Iterate(init, draws, cfg, names);
            st in s.stats && row < |s.stats[st]| &&
            s.stats[st][row] == StatValue(st, LiveOf(Iterate(init, draws[..last], cfg, names)))
  {
    StatTraceRows(init, draws, cfg, names, st, row, last);
    StatTraceAt(init, draws, cfg, names, st, last - 1);
  }

  /**
   * For a whole run whose save test passes, row r of every registered stat's
   * table holds the stat's value after iteration r * thin + thin - 1: the
   * same iteration whose position row r of the sample table holds.
   */
  lemma {:induction false} RunStatRows(init: State, draws: seq<Draw>, cfg: Config, names: seq<StatName>, st: StatName,
                                       row: nat)
    requires Shaped(init, cfg, names) && |draws| == cfg.n && AllFit(draws, |init.x|)
    requires SaveDue(cfg) && st in names && row < cfg.n / cfg.thin
    ensures row * cfg.thin + cfg.thin <= cfg.n
    ensures var s := Iterate(init, draws, cfg, names);
            st in s.stats && row < |s.stats[st]| &&
            s.stats[st][row] == StatValue(st, LiveOf(Iterate(init, draws[..row * cfg.thin + cfg.thin], cfg, names)))
  {
    BlockEnd(row, cfg.thin, cfg.n);
    StatRowAt(init, draws, cfg, names, st, row, row * cfg.thin + cfg.thin);
  }

  /** An iteration changes prop_S only when the tune trigger fires, and then by the tuner. */
  lemma {:induction false} StepScales(s: State, d: Draw, i: nat, cfg: Config, names: seq<StatName>)
    requires Shaped(s, cfg, names) && Fits(d, |s.x|) && i < cfg.n
    ensures var r := Step(s, d, i, cfg, names);
            |r.ratios| == |s.propS| &&
            r.propS == if TuneDue(s.iter, cfg) then Tuning.Tuned(s.propS, r.ratios) else s.propS
  {
  }

  /** Every proposal scale is strictly positive. */
  ghost predicate PositiveScales(propS: seq<real>)
  {
    forall v :: 0 <= v < |propS| ==> propS[v] > 0.0
  }

  /** Positive proposal scales stay positive through any number of iterations. */
  lemma {:induction false} ScalesStayPositive(init: State, draws: seq<Draw>, cfg: Config, names: seq<StatName>)
    requires Shaped(init, cfg, names) && |draws| <= cfg.n && AllFit(draws, |init.x|)
    requires PositiveScales(init.propS)
    ensures PositiveScales(Iterate(init, draws, cfg, names).propS)
    decreases |draws|
  {
    if |draws| > 0 {
      var k := |draws| - 1;
      var prev := Iterate(init, draws[..k], cfg, names);
      ScalesStayPositive(init, draws[..k], cfg, names);
      var s := Step(prev, draws[k], k, cfg, names);
      StepScales(prev, draws[k], k, cfg, names);
      if TuneDue(prev.iter, cfg) {
        Tuning.TunedKeepsPositive(prev.propS, s.ratios);
      }
    }
  }

  /**
   * With the tuning horizon no later than the first multiple of
   * tuneInterval, a run starting at iteration 1 never tunes: prop_S is
   * untouched. This covers the default tune = 0.
   */
  lemma {:induction false} ShortHorizonNeverTunes(init: State, draws: seq<Draw>, cfg: Config, names: seq<StatName>)
    requires Shaped(init, cfg, names) && |draws| <= cfg.n && AllFit(draws, |init.x|)
    requires init.iter == 1 && cfg.tune <= cfg.tuneInterval
    ensures Iterate(init, draws, cfg, names).propS == init.propS
    decreases |draws|
  {
    if |draws| > 0 {
      var k := |draws| - 1;
      ShortHorizonNeverTunes(init, draws[..k], cfg, names);
      var prev := Iterate(init, draws[..k], cfg, names);
      StepScales(prev, draws[k], k, cfg, names);
      NotDueBeforeFirstInterval(prev.iter, cfg);
    }
  }

  lemma {:induction false} NotDueBeforeFirstInterval(iter: nat, cfg: Config)
    requires cfg.tuneInterval > 0 && 1 <= iter && cfg.tune <= cfg.tuneInterval
    ensures !TuneDue(iter, cfg)
  {
    if iter < cfg.tuneInterval {
      assert iter % cfg.tuneInterval == iter;
    }
  }

  /**
   * The save test as the source writes it reads `n`, so a run saves at every
   * iteration or at none. Testing the index instead (i % thin == 0) against
   * tables of n // thin rows would index one row past the end, which numpy
   * refuses with an IndexError: with n = 5 and thin = 2, iteration 4 passes
   * that test and maps to row 2 of a 2-row table.
   */
  lemma {:induction false} IndexThinOverruns()
    ensures var n, thin, i := 5, 2, 4;
            i < n && i % thin == 0 && i / thin == n / thin && n % thin != 0
  {
  }
}
