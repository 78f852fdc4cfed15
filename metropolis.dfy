/**
 * The sampler object of mcmc/metropolis.py, Metropolis1dStep, as a class
 * whose methods update its fields in place: stat registration, run-start
 * allocation, the tuner, the sample store and the iteration loop of run.
 * Each method is proved against the value-level model in module Chain, so
 * the invariants proved there hold of the object's fields.
 */
module Metropolis {
  import opened Stats
  import Tuning
  import W = Window
  import C = Chain

  /** The contents of a matrix, row by row. */
  function Rows<T>(m: array2<T>): (w: seq<seq<T>>)
    reads m
    ensures |w| == m.Length0
    ensures forall r :: 0 <= r < m.Length0 ==> |w[r]| == m.Length1
    ensures forall r, c :: 0 <= r < m.Length0 && 0 <= c < m.Length1 ==> w[r][c] == m[r, c]
  {
    seq(m.Length0, r requires 0 <= r < m.Length0 reads m =>
      seq(m.Length1, c requires 0 <= c < m.Length1 reads m => m[r, c]))
  }

  /** A matrix whose cells agree with a sequence of rows of its shape has those rows. */
  lemma RowsEqual<T>(m: array2<T>, w: seq<seq<T>>)
    requires |w| == m.Length0 && forall r :: 0 <= r < |w| ==> |w[r]| == m.Length1
    requires forall r, c :: 0 <= r < m.Length0 && 0 <= c < m.Length1 ==> m[r, c] == w[r][c]
    ensures Rows(m) == w
  {
    forall r | 0 <= r < |w|
      ensures Rows(m)[r] == w[r]
    {
    }
  }

  /** np.zeros((rows, width)): a fresh zero-filled table. */
  method NewTable(rows: nat, width: nat) returns (t: array2<real>)
    ensures fresh(t) && t.Length0 == rows && t.Length1 == width
    ensures forall r, c :: 0 <= r < rows && 0 <= c < width ==> t[r, c] == 0.0
  {
    t := new real[rows, width]((r, c) => 0.0);
  }

  /** The loop of initialize_arrays over the registered stats: a zero table of its width for each. */
  method AllocateStats(stats: map<StatName, seq<seq<real>>>, names: seq<StatName>, rows: nat, width: nat)
    returns (tables: map<StatName, seq<seq<real>>>)
    ensures tables == C.Allocate(stats, names, rows, width)
  {
    tables := stats;
    for k := 0 to |names|
      invariant tables == C.Allocate(stats, names[..k], rows, width)
    {
      var st := names[k];
      assert names[..k + 1][..k] == names[..k];
      tables := tables[st := C.Table(rows, Width(st, width))];
    }
    assert names[..|names|] == names;
  }

  /** The Metropolis sampler with one-coordinate steps and its run-time bookkeeping. */
  class Metropolis1dStep {
    var nVars: nat                              // n_vars
    var nSamples: nat                           // n_samples
    var propS: array<real>                      // prop_S, the proposal scales
    var saveStats: seq<StatName>                // _save_stats, registered stats in order
    var samples: array2<real>                   // samples, n_samples x n_vars
    var stats: map<StatName, seq<seq<real>>>    // stats, one n_samples x width table per stat
    var currentIter: nat                        // _current_iter, 1-based
    var recentNProp: seq<nat>                   // _recent_n_prop, column sums of the propose window
    var recentNAccept: seq<nat>                 // _recent_n_accept, column sums of the accept window
    var propMat: seq<seq<bool>>                 // _prop_mat, tune_interval x n_vars
    var acceptMat: seq<seq<bool>>               // _accept_mat, tune_interval x n_vars
    var acceptRatios: seq<real>                 // _accept_ratios
    var generalAcceptRatio: real                // _general_accept_ratio
    var xLoglike: real                          // _x_loglike

    /** The shapes the fields keep between calls. */
    ghost predicate Valid()
      reads this
    {
      samples.Length0 == nSamples && samples.Length1 == nVars &&
      |recentNProp| == nVars && |recentNAccept| == nVars && |acceptRatios| == nVars &&
      forall st :: st in stats ==> st in saveStats
    }

    /** The fields, with run's live position and its two counters, as a value of the reference model. */
    ghost function Abs(x: array<real>, logprior: real, nAccept: nat): C.State
      reads this, x, propS, samples
    {
      C.State(x[..], xLoglike, logprior, nAccept, currentIter, propMat, acceptMat,
              recentNProp, recentNAccept, acceptRatios, generalAcceptRatio, propS[..], Rows(samples), stats)
    }

    /** The fields (and the live position x) agree with state `s` of the reference model. */
    ghost predicate Mirrors(x: array<real>, s: C.State)
      reads this, x, propS, samples
    {
      x[..] == s.x && xLoglike == s.loglike && currentIter == s.iter &&
      propMat == s.propWin && acceptMat == s.accWin &&
      recentNProp == s.nProp && recentNAccept == s.nAcc && acceptRatios == s.ratios &&
      generalAcceptRatio == s.generalRatio && propS[..] == s.propS &&
      Rows(samples) == s.samples && stats == s.stats
    }

    /** The fields a stat can name, read now. */
    function Live(): C.Live
      reads this, propS
    {
      C.Live(xLoglike, generalAcceptRatio, propS[..], acceptRatios)
    }

    /**
     * A sampler with the given proposal scales, no stat registered and
     * nothing allocated yet.
     */
    constructor (initialScale: seq<real>)
      ensures Valid() && fresh(propS)
      ensures propS[..] == initialScale && nVars == |initialScale|
      ensures saveStats == [] && stats == map[] && currentIter == 1
    {
      nVars := |initialScale|;
      nSamples := 0;
      propS := new real[|initialScale|](i requires 0 <= i < |initialScale| => initialScale[i]);
      saveStats := [];
      samples := new real[0, |initialScale|];
      stats := map[];
      currentIter := 1;
      recentNProp := C.NatZeros(|initialScale|);
      recentNAccept := C.NatZeros(|initialScale|);
      propMat := [];
      acceptMat := [];
      acceptRatios := C.Zeros(|initialScale|);
      generalAcceptRatio := 0.0;
      xLoglike := 0.0;
    }

    /**
     * add_stat: registers `name` if it is a key of the catalog; any other
     * name leaves the registered list as it was and fails nothing.
     */
    method AddStat(name: string)
      requires Valid()
      modifies this`saveStats
      ensures Valid()
      ensures name in Keys() ==> saveStats == old(saveStats) + [Parse(name).value]
      ensures name !in Keys() ==> saveStats == old(saveStats)
    {
      var st := Parse(name);
      if st.Some? {
        saveStats := saveStats + [st.value];
      }
    }

    /** The window half of initialize_arrays: empty windows, zero sums and ratios, the counter at 1. */
    method ResetWindow(width: nat, depth: nat)
      modifies this`currentIter, this`recentNProp, this`recentNAccept, this`propMat, this`acceptMat
      modifies this`acceptRatios
      ensures currentIter == 1
      ensures recentNProp == C.NatZeros(width) && recentNAccept == C.NatZeros(width)
      ensures acceptRatios == C.Zeros(width)
      ensures propMat == W.Empty(depth, width) && acceptMat == W.Empty(depth, width)
    {
      currentIter := 1;
      recentNProp, recentNAccept, acceptRatios := C.NatZeros(width), C.NatZeros(width), C.Zeros(width);
      propMat, acceptMat := W.Empty(depth, width), W.Empty(depth, width);
    }

    /** The output half of initialize_arrays: a zero sample table and a zero table per registered stat. */
    method SizeOutputs(width: nat, rows: nat)
      requires forall st :: st in stats ==> st in saveStats
      requires |recentNProp| == width && |recentNAccept| == width && |acceptRatios| == width
      modifies this`nVars, this`nSamples, this`samples, this`stats
      ensures Valid() && nVars == width && nSamples == rows
      ensures fresh(samples) && Rows(samples) == C.Table(rows, width)
      ensures stats == C.Allocate(old(stats), saveStats, rows, width)
    {
      var tables := AllocateStats(stats, saveStats, rows, width);
      C.AllocateKeys(stats, saveStats, rows, width);
      var table := NewTable(rows, width);
      nVars, nSamples, samples, stats := width, rows, table, tables;
      RowsEqual(samples, C.Table(rows, width));
    }

    /**
     * initialize_arrays: sizes the output tables for a run of n iterations
     * and resets the window, the counters and the ratios.
     */
    method InitializeArrays(x0: array<real>, n: nat, thin: nat, tune: int, tuneInterval: nat,
                            discardTuning: bool)
      requires Valid() && thin > 0
      modifies this`nVars, this`nSamples, this`samples, this`stats, this`currentIter
      modifies this`recentNProp, this`recentNAccept, this`propMat, this`acceptMat, this`acceptRatios
      ensures Valid()
      ensures nVars == x0.Length && nSamples == C.NSamples(n, thin, tune, discardTuning) == n / thin
      ensures fresh(samples) && Rows(samples) == C.Table(nSamples, nVars)
      ensures stats == C.Allocate(old(stats), saveStats, nSamples, nVars)
      ensures currentIter == 1
      ensures recentNProp == C.NatZeros(nVars) && recentNAccept == C.NatZeros(nVars)
      ensures acceptRatios == C.Zeros(nVars)
      ensures propMat == W.Empty(tuneInterval, nVars) && acceptMat == W.Empty(tuneInterval, nVars)
    {
      var width := x0.Length;
      ResetWindow(width, tuneInterval);
      SizeOutputs(width, C.NSamples(n, thin, tune, discardTuning));
    }

    /** save_sample: copies x, by value, into row i of the sample table. */
    method SaveSample(x: array<real>, i: nat)
      requires i < samples.Length0 && x.Length == samples.Length1
      modifies samples
      ensures Rows(samples) == old(Rows(samples))[i := x[..]]
    {
      for c := 0 to samples.Length1
        invariant forall j :: 0 <= j < c ==> samples[i, j] == x[j]
        invariant forall r, j :: 0 <= r < samples.Length0 && 0 <= j < samples.Length1 && (r != i || j >= c) ==>
                    samples[r, j] == old(samples[r, j])
      {
        samples[i, c] := x[c];
      }
      RowsEqual(samples, old(Rows(samples))[i := x[..]]);
    }

    /**
     * tune: multiplies the proposal scale of each variable by the multiplier
     * its windowed acceptance ratio selects. Nothing but prop_S changes.
     */
    method Tune()
      requires Valid() && propS.Length >= nVars
      modifies propS
      ensures propS[..nVars] == Tuning.Tuned(old(propS[..nVars]), acceptRatios)
      ensures propS[nVars..] == old(propS[nVars..])
    {
      ghost var tuned := Tuning.Tuned(old(propS[..nVars]), acceptRatios);
      for i := 0 to nVars
        invariant forall j :: 0 <= j < i ==> propS[j] == tuned[j]
        invariant forall j :: i <= j < propS.Length ==> propS[j] == old(propS[j])
      {
        propS[i] := propS[i] * Tuning.Multiplier(acceptRatios[i]);
      }
    }

    /** Records every registered stat's live value into row `row` of its table. */
    method RecordStats(row: nat)
      requires forall k :: 0 <= k < |saveStats| ==> saveStats[k] in stats && row < |stats[saveStats[k]]|
      modifies this`stats
      ensures stats == C.Record(old(stats), saveStats, row, Live())
    {
      var live, names, tables := Live(), saveStats, stats;
      for k := 0 to |names|
        invariant tables == C.Record(old(stats), names[..k], row, live)
      {
        var st := names[k];
        assert names[..k + 1][..k] == names[..k];
        tables := tables[st := tables[st][row := C.StatValue(st, live)]];
      }
      assert names[..|names|] == names;
      stats := tables;
      assert live == Live();
    }

    /**
     * The first part of the loop body of run: roll both windows and mark the
     * changed coordinates, then take or refuse the candidate, copying it into
     * x when accepted. `logprior` and `nAccept` are run's locals.
     */
    method Advance(x: array<real>, logprior: real, nAccept: nat, d: C.Draw) returns (logprior': real, nAccept': nat)
      requires Valid() && x != propS && nVars == x.Length
      requires C.Windowed(Abs(x, logprior, nAccept)) && C.Fits(d, x.Length)
      modifies x, this`xLoglike, this`propMat, this`acceptMat
      ensures Valid()
      ensures Abs(x, logprior', nAccept') == C.Advance(old(Abs(x, logprior, nAccept)), d)
    {
      // the changed coordinates: np.nonzero(xp - x)
      var mask := W.Changed(x[..], d.xp);
      W.RollMarkShape(propMat, nVars, mask);
      W.RollMarkShape(acceptMat, nVars, mask);
      propMat := W.Mark(W.Roll(propMat, nVars), mask);
      acceptMat := W.Roll(acceptMat, nVars);
      if d.accepted {
        forall k | 0 <= k < x.Length {
          x[k] := d.xp[k];
        }
        assert x[..] == d.xp;
        xLoglike := d.loglike;
        logprior', nAccept' := d.logprior, nAccept + 1;
        acceptMat := W.Mark(acceptMat, mask);
      } else {
        logprior', nAccept' := logprior, nAccept;
      }
    }

    /**
     * The ratio part of the loop body of run: column sums of both windows,
     * per-variable ratios where a proposal is left in the window, and the
     * global ratio against the iteration counter.
     */
    method Refresh(ghost x: array<real>, ghost logprior: real, nAccept: nat, unset: seq<real>)
      requires Valid() && nVars == x.Length && |unset| == nVars && currentIter >= 1
      requires C.Windowed(Abs(x, logprior, nAccept))
      modifies this`recentNProp, this`recentNAccept, this`acceptRatios, this`generalAcceptRatio
      ensures Valid()
      ensures Abs(x, logprior, nAccept) == C.Refresh(old(Abs(x, logprior, nAccept)), unset)
    {
      recentNProp := W.Counts(propMat, nVars);
      recentNAccept := W.Counts(acceptMat, nVars);
      acceptRatios := W.Ratios(recentNAccept, recentNProp, unset);
      generalAcceptRatio := nAccept as real / currentIter as real;
    }

    /** The tune trigger of run: tune when the counter is a multiple of the interval below `tune`. */
    method MaybeTune(ghost x: array<real>, ghost logprior: real, ghost nAccept: nat, cfg: C.Config)
      requires Valid() && x != propS && propS.Length == nVars && cfg.tuneInterval > 0
      modifies propS
      ensures Valid()
      ensures Abs(x, logprior, nAccept) == C.MaybeTune(old(Abs(x, logprior, nAccept)), cfg)
    {
      if currentIter % cfg.tuneInterval == 0 && currentIter < cfg.tune {
        Tune();
        assert propS[..] == propS[..nVars];
      }
    }

    /** The save branch of run: when n is a multiple of thin, store x and the stats in row i // thin. */
    method MaybeSave(x: array<real>, ghost logprior: real, ghost nAccept: nat, i: nat, cfg: C.Config)
      requires Valid() && C.ValidConfig(cfg) && i < cfg.n && nSamples == cfg.n / cfg.thin
      requires x.Length == nVars
      requires forall k :: 0 <= k < |saveStats| ==> saveStats[k] in stats && |stats[saveStats[k]]| == nSamples
      modifies samples, this`stats
      ensures Valid()
      ensures Abs(x, logprior, nAccept) == C.MaybeSave(old(Abs(x, logprior, nAccept)), i, cfg, saveStats)
    {
      if cfg.n % cfg.thin == 0 {
        var row := i / cfg.thin;
        C.SaveRowInBounds(cfg.n, cfg.thin, i);
        SaveSample(x, row);
        RecordStats(row);
      }
    }

    /** The last statement of the loop body of run: the iteration counter advances. */
    method Tick(ghost x: array<real>, ghost logprior: real, ghost nAccept: nat)
      requires Valid()
      modifies this`currentIter
      ensures Valid()
      ensures Abs(x, logprior, nAccept) == old(Abs(x, logprior, nAccept)).(iter := old(currentIter) + 1)
    {
      currentIter := currentIter + 1;
    }

    /**
     * One pass of the loop of run, iteration i with inputs d: the four
     * phases, then the counter advances. `logprior` and `nAccept` are run's
     * locals.
     */
    method Iteration(x: array<real>, logprior: real, nAccept: nat, d: C.Draw, i: nat, cfg: C.Config)
      returns (logprior': real, nAccept': nat)
      requires Valid() && x != propS && nVars == x.Length
      requires C.Shaped(Abs(x, logprior, nAccept), cfg, saveStats) && C.Fits(d, x.Length) && i < cfg.n
      modifies this`propMat, this`acceptMat, this`xLoglike, this`recentNProp, this`recentNAccept
      modifies this`acceptRatios, this`generalAcceptRatio, this`stats, this`currentIter, x, propS, samples
      ensures Valid()
      ensures Abs(x, logprior', nAccept') == C.Step(old(Abs(x, logprior, nAccept)), d, i, cfg, saveStats)
    {
      ghost var s := Abs(x, logprior, nAccept);
      C.StepPhases(s, d, i, cfg, saveStats);
      logprior', nAccept' := Advance(x, logprior, nAccept, d);
      Refresh(x, logprior', nAccept', d.unsetRatios);
      MaybeTune(x, logprior', nAccept', cfg);
      MaybeSave(x, logprior', nAccept', i, cfg);
      Tick(x, logprior', nAccept');
    }

    /** The opening of run: initialize_arrays, then the log-likelihood at x0 is kept. */
    method Start(x0: array<real>, cfg: C.Config, loglike0: real, ghost logprior0: real)
      requires Valid() && C.ValidConfig(cfg) && x0 != propS && propS.Length == x0.Length
      modifies this`nVars, this`nSamples, this`samples, this`stats, this`currentIter
      modifies this`recentNProp, this`recentNAccept, this`propMat, this`acceptMat, this`acceptRatios
      modifies this`xLoglike
      ensures Valid() && nVars == x0.Length && fresh(samples)
      ensures Abs(x0, logprior0, 0)
           == C.Init(x0[..], loglike0, logprior0, propS[..], generalAcceptRatio, old(stats), cfg, saveStats)
      ensures C.Shaped(Abs(x0, logprior0, 0), cfg, saveStats)
    {
      C.InitConsistent(x0[..], loglike0, logprior0, propS[..], generalAcceptRatio, stats, cfg, saveStats);
      InitializeArrays(x0, cfg.n, cfg.thin, cfg.tune, cfg.tuneInterval, cfg.discardTunedSamples);
      xLoglike := loglike0;
    }

    /** The loop of run over the iterations whose inputs are `draws`, iteration k getting index k. */
    method Loop(x: array<real>, logprior0: real, cfg: C.Config, draws: seq<C.Draw>)
      returns (logprior: real, nAccept: nat)
      requires Valid() && x != propS && nVars == x.Length
      requires C.Shaped(Abs(x, logprior0, 0), cfg, saveStats) && |draws| <= cfg.n && C.AllFit(draws, x.Length)
      modifies this`propMat, this`acceptMat, this`xLoglike, this`recentNProp, this`recentNAccept
      modifies this`acceptRatios, this`generalAcceptRatio, this`stats, this`currentIter, x, propS, samples
      ensures Valid()
      ensures Abs(x, logprior, nAccept) == C.Iterate(old(Abs(x, logprior0, 0)), draws, cfg, saveStats)
    {
      ghost var init := Abs(x, logprior0, 0);
      logprior, nAccept := logprior0, 0;
      for i := 0 to |draws|
        invariant Valid() && nVars == x.Length
        invariant Abs(x, logprior, nAccept) == C.Iterate(init, draws[..i], cfg, saveStats)
      {
        assert draws[..i + 1][..i] == draws[..i];
        logprior, nAccept := Iteration(x, logprior, nAccept, draws[i], i, cfg);
      }
      assert draws[..|draws|] == draws;
    }

    /** Bounds on a state of the reference model hold of the fields that mirror it. */
    lemma MirroredBounds(x: array<real>, s: C.State, depth: nat)
      requires Valid() && Mirrors(x, s) && nVars == |s.x| && C.Bounded(s, depth)
      ensures W.Subsumed(acceptMat, propMat, nVars)
      ensures forall c :: 0 <= c < nVars ==> recentNAccept[c] <= recentNProp[c] <= depth
      ensures forall c :: 0 <= c < nVars && recentNProp[c] != 0 ==> 0.0 <= acceptRatios[c] <= 1.0
    {
    }

    /**
     * run: initialize_arrays, then n iterations whose stochastic inputs are
     * `draws`. The position lives in the caller's x0, which accepted moves
     * overwrite. loglike0 and logprior0 are the log-likelihood and log-prior
     * evaluated at x0 before the first iteration.
     */
    method Run(x0: array<real>, n: nat, tune: int, tuneInterval: nat, discardTunedSamples: bool, thin: nat,
               loglike0: real, logprior0: real, draws: seq<C.Draw>)
      requires Valid() && thin > 0 && (n == 0 || tuneInterval > 0)
      requires x0 != propS && propS.Length == x0.Length
      requires |draws| == n && C.AllFit(draws, x0.Length)
      modifies this, x0, propS
      ensures Valid() && propS == old(propS) && saveStats == old(saveStats) && nVars == x0.Length
      ensures Mirrors(x0, C.Run(old(x0[..]), loglike0, logprior0, old(propS[..]), old(generalAcceptRatio),
                                old(stats), C.Config(n, tune, tuneInterval, discardTunedSamples, thin),
                                saveStats, draws))
      ensures currentIter == n + 1
      ensures forall c :: 0 <= c < nVars ==> recentNAccept[c] <= recentNProp[c] <= tuneInterval
      ensures forall c :: 0 <= c < nVars && recentNProp[c] != 0 ==> 0.0 <= acceptRatios[c] <= 1.0
      ensures W.Subsumed(acceptMat, propMat, nVars)
      ensures n >= 1 ==> generalAcceptRatio == C.AcceptedCount(draws) as real / n as real
    {
      var cfg := C.Config(n, tune, tuneInterval, discardTunedSamples, thin);
      ghost var xs, scales, ratio, tables := x0[..], propS[..], generalAcceptRatio, stats;
      ghost var final := C.Run(xs, loglike0, logprior0, scales, ratio, tables, cfg, saveStats, draws);
      C.RunBounds(xs, loglike0, logprior0, scales, ratio, tables, cfg, saveStats, draws);
      Start(x0, cfg, loglike0, logprior0);
      var xLogprior, nAccept := Loop(x0, logprior0, cfg, draws);
      assert Abs(x0, xLogprior, nAccept) == final;
      MirroredBounds(x0, final, tuneInterval);
    }
  }
}
