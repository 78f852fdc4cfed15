# Metropolis1dStep bookkeeping, in Dafny

This project models the discrete bookkeeping and adaptation logic of
`Metropolis1dStep` in `mcmc/metropolis.py`, a Metropolis MCMC sampler.
The sampler moves one coordinate at a time and tunes its proposal scales
`prop_S` from a rolling record of recent acceptances.

What is modelled:

- **The `STATS` catalog and `add_stat`** (module `Stats`, class method
  `AddStat`). There are four stat keys. Each maps to a chain field and a row
  width of 1 or `n_vars`.
- **`initialize_arrays`.** It sizes the `samples` table and one table per
  registered stat. It resets the iteration counter, the two window matrices,
  the column sums and the ratios.
- **The tuner `tune`** (module `Tuning`). This is an ordered first-match
  table that maps a variable's windowed acceptance ratio to a multiplier of
  its proposal scale.
- **The rolling windows `_prop_mat` and `_accept_mat`** (module `Window`).
  - Each iteration moves the rows down by one and drops the oldest.
  - It clears row 0 and marks the coordinates the candidate changed.
  - In the accept window it marks them only if the move was accepted.
- **One iteration of `run`.** It updates the windows, the position, the
  counters, the per-variable and global ratios, the tune trigger, the
  save/thinning write and the iteration counter.

The model has two layers.

- **Module `Chain`** is a value-level reference model. `State` holds
  everything a run reads and writes. `Step` is one iteration, `Iterate`
  folds `Step` over the iteration inputs, and `Run` is the whole run. The
  invariants and the whole-run properties are proved here:
  - accept within propose, cell by cell;
  - column sums bounded by the window depth;
  - ratios in [0, 1];
  - the exact global ratio;
  - what each window row, each sample row and each stat row holds after a
    run;
  - positive scales stay positive.
- **Module `Metropolis`** holds the class `Metropolis1dStep`. Its fields are
  the sampler's attributes, and its methods update them in place.
  - Every method of `initialize_arrays` and of the loop of `run` is proved
    against the matching function of `Chain`, step for step, through a
    ghost abstraction `Abs`. So everything proved in `Chain` holds of the
    object's fields.
  - `AddStat`, `Tune` and `SaveSample` are specified directly: against
    `Stats.Parse` and the catalog keys, against `Tuning.Tuned`, and as a
    single row update of the sample table.

The stochastic and foreign parts of an iteration are inputs, one `Draw` per
iteration:

- the candidate the user's proposal returned;
- its log-prior and log-likelihood;
- the outcome of the random accept test;
- the values numpy leaves in ratio entries it does not compute.

Every property holds for all such inputs.

The model follows the code where the code and its apparent intent differ:

- **`n_samples` ignores `discard_tuned_samples`.** `initialize_arrays`
  computes `n_samples -= tune` and then overwrites it with `n // thin`
  (`mcmc/metropolis.py:133-136`). `Chain.NSamples` does the same, and
  `Chain.DiscardTuningIgnored` states that the flag has no effect.
- **The save test reads `n`, not `i`** (`if n % thin == 0`,
  `mcmc/metropolis.py:381`). So a run saves at every iteration or at none.
  - With the test as written, the row `i // thin` is always inside the
    `n // thin`-row table (`Chain.SaveRowInBounds`).
  - Each row ends up holding the position after the last iteration of its
    block of `thin` (`Chain.RunSampleRows`).
  - `Chain.IndexThinOverruns` gives the concrete case that shows a test on
    `i` would index one row past the end of the table, which numpy
    refuses with an IndexError: n = 5, thin = 2, i = 4.
- **The global ratio is computed before the counter advances.**
  `_general_accept_ratio = n_accept / _current_iter` is computed before
  `_current_iter` is incremented. So after a complete run of n iterations
  it is (accepted iterations) / n, and the counter stands at n + 1
  (`Chain.RunGlobalRatio`).

## Model

| member | source | states |
|---|---|---|
| Stats.Parse | mcmc/metropolis.py:14-19 | a name resolves to a stat exactly when it is one of the four catalog keys, and then to the stat with that key |
| Stats.ParseKey | mcmc/metropolis.py:14-19 | every stat's key is in the catalog and resolves back to that stat |
| Metropolis.Metropolis1dStep.AddStat | mcmc/metropolis.py:99-104 | a catalog key is appended to the registered stats; any other name leaves them unchanged and raises nothing |
| Metropolis.Metropolis1dStep.constructor | mcmc/metropolis.py:80-95 | a new sampler has no registered stats, no tables, counter 1 and the given proposal scales |
| Chain.DiscardTuningIgnored | mcmc/metropolis.py:133-136 | the number of table rows is n // thin whether or not tuned samples are to be discarded |
| Chain.AllocateTables | mcmc/metropolis.py:141-150 | after allocation every registered stat holds an all-zero table of n_samples rows and its catalog width (1 or n_vars); other entries are kept |
| Chain.AllocateKeys | mcmc/metropolis.py:141-150 | when the stats dictionary held only registered names, it still does after allocation |
| Metropolis.AllocateStats | mcmc/metropolis.py:142-150 | the allocation loop over the registered stats yields exactly the allocated dictionary |
| Metropolis.NewTable | mcmc/metropolis.py:138-139 | a fresh rows x width table filled with zeros |
| Metropolis.Metropolis1dStep.ResetWindow | mcmc/metropolis.py:153-160 | the counter is 1; both windows are all-false tune_interval x n_vars; sums and ratios are zero |
| Metropolis.Metropolis1dStep.SizeOutputs | mcmc/metropolis.py:131-150 | n_vars and n_samples are set, samples is a fresh all-zero table, each registered stat gets its zero table |
| Metropolis.Metropolis1dStep.InitializeArrays | mcmc/metropolis.py:129-160 | n_vars = x0.size and n_samples = n // thin; samples is a fresh zero n_samples x n_vars table; every registered stat gets a zero table of its width; the counter is 1 and both windows are all-false tune_interval x n_vars |
| Metropolis.Metropolis1dStep.SaveSample | mcmc/metropolis.py:169-177 | row i of the sample table becomes a copy of x; every other cell is unchanged |
| Tuning.Multiplier | mcmc/metropolis.py:197-215 | the factor tune applies is always strictly positive |
| Tuning.MultiplierBands | mcmc/metropolis.py:197-215 | the first-match tests split the ratio line into seven disjoint bands with factors 0.1, 0.5, 0.9, 1.0, 1.1, 2, 10, each stated in both directions |
| Tuning.MultiplierMonotone | mcmc/metropolis.py:197-215 | a higher acceptance ratio never gets a smaller factor |
| Tuning.MultiplierAtBoundaries | mcmc/metropolis.py:184-192 | at each threshold of the adaptation table the strict comparisons select the documented factor, and just past it the next one |
| Tuning.TunedKeepsPositive | mcmc/metropolis.py:197-215 | tuning keeps positive proposal scales positive |
| Tuning.TunedKeepsMiddleBand | mcmc/metropolis.py:197-215 | a variable whose ratio lies in [0.2, 0.5] keeps its scale exactly |
| Metropolis.Metropolis1dStep.Tune | mcmc/metropolis.py:179-215 | each of the first n_vars scales is multiplied by the factor its ratio selects; nothing else, including the other scales, changes |
| Window.RollMarkShape | mcmc/metropolis.py:281-288 | rolling and marking keep the window depth and row width |
| Window.RollMarkRows | mcmc/metropolis.py:281-288 | after an iteration row 0 is exactly the changed-coordinate mask and every older row moved down by one |
| Window.RollMarkShifts | mcmc/metropolis.py:281-288 | rolling pushes an empty row on top of the window minus its last row; marking then pushes the mask instead |
| Window.SlidingCount | mcmc/metropolis.py:281-288 | a column sum after the iteration is the old sum minus the expired oldest row plus the new row |
| Window.ShiftFirst | mcmc/metropolis.py:281-284 | after k iterations, row r >= k of a window is row r - k of the starting window |
| Window.ShiftLast | mcmc/metropolis.py:281-288 | after k iterations, row r < k of a window is the row pushed r iterations before the end |
| Window.RollMarkSubsumed | mcmc/metropolis.py:281-346 | one iteration keeps "accepted implies proposed" cell by cell |
| Window.CountAtMostDepth | mcmc/metropolis.py:349-350 | a column sum is at most the window depth |
| Window.SubsumedCounts | mcmc/metropolis.py:349-350 | where accept lies within propose, each accept column sum is at most the propose column sum |
| Window.RatioInUnit | mcmc/metropolis.py:351-353 | a ratio over a nonzero propose sum is accept sum / propose sum and lies in [0, 1] |
| Chain.Step | mcmc/metropolis.py:333-339 | on accept the position is the candidate, the log-likelihood and log-prior are the candidate's, and n_accept rises by one; on reject all four are unchanged; the counter rises by one |
| Chain.StepPhases | mcmc/metropolis.py:276-391 | an iteration is the roll/mark/accept phase, the ratio refresh, the tune trigger and the save, in that order, then the counter increment |
| Chain.StepShaped | mcmc/metropolis.py:276-391 | an iteration keeps the window depths, the vector lengths and the table sizes |
| Chain.StepWindows | mcmc/metropolis.py:281-350 | an iteration keeps accept within propose and the column sums equal to the windows' sums |
| Chain.StepRatios | mcmc/metropolis.py:349-353 | after an iteration every ratio over a nonzero propose sum is accept sum / propose sum |
| Chain.StepCounter | mcmc/metropolis.py:339-356 | an iteration keeps n_accept below the counter and the global ratio equal to n_accept over the iterations run |
| Chain.StepTables | mcmc/metropolis.py:381-388 | an iteration writes rows of the right width into tables of unchanged size |
| Chain.StepConsistent | mcmc/metropolis.py:276-391 | every iteration keeps the whole run invariant |
| Chain.Iterate | mcmc/metropolis.py:270-391 | after k iterations the counter has advanced by k (_current_iter == i + 1 at iteration i) and the shapes are kept |
| Chain.IterateConsistent | mcmc/metropolis.py:270-391 | the run invariant holds after any number of iterations |
| Chain.CountEmpty | mcmc/metropolis.py:156-159 | a freshly allocated window has zero column sums |
| Chain.InitConsistent | mcmc/metropolis.py:129-160 | the state a run starts from satisfies the run invariant |
| Chain.ConsistentBounds | mcmc/metropolis.py:349-356 | under the invariant: 0 <= accept sum <= propose sum <= tune_interval per variable, defined ratios in [0, 1], n_accept < _current_iter, global ratio in [0, 1] |
| Chain.AcceptCounter | mcmc/metropolis.py:339 | n_accept counts exactly the accepted iterations |
| Chain.Run | mcmc/metropolis.py:217-391 | a whole run ends in a state satisfying the run invariant |
| Chain.RunGlobalRatio | mcmc/metropolis.py:355-356 | after n >= 1 iterations the counter is n + 1 and the global ratio is accepted / n, within [0, 1] |
| Chain.RunBounds | mcmc/metropolis.py:217-391 | a complete run leaves counter n + 1, accept within propose, column sums bounded by tune_interval, defined ratios in [0, 1] and the exact global ratio |
| Chain.WindowRows | mcmc/metropolis.py:278-288 | the windows hold exactly the last tune_interval iterations, newest in row 0: a propose row is that iteration's changed coordinates; an accept row is the same if it accepted, else all-false; deeper rows are the starting rows moved down |
| Chain.SaveRowInBounds | mcmc/metropolis.py:381-383 | when the save test passes, the row i // thin written at iteration i < n is inside the n // thin-row table |
| Chain.NoSaveKeepsTables | mcmc/metropolis.py:381-388 | when n is not a multiple of thin, no iteration writes the sample or stat tables |
| Chain.RecordRows | mcmc/metropolis.py:384-388 | recording puts every registered stat's live field value into the row and leaves every other entry and row unchanged, whatever the registration order or repetitions |
| Chain.StepSamples | mcmc/metropolis.py:381-383 | a saving iteration writes its new position into row i // thin and nowhere else |
| Chain.LastInBlock | mcmc/metropolis.py:381-383 | the result is -1 or an index below count that maps to the row |
| Chain.LastInBlockIsLast | mcmc/metropolis.py:381-383 | no index after the result and below count maps to the row, so the result is the last one that does |
| Chain.SampleRows | mcmc/metropolis.py:381-383 | when saving, each sample row holds the position after the last iteration that mapped to it, or its starting content |
| Chain.RunSampleRows | mcmc/metropolis.py:381-383 | after a complete saving run, row r holds the position after iteration r * thin + thin - 1, the last of its block |
| Chain.StepStats | mcmc/metropolis.py:381-388 | a saving iteration keeps the stat names; each registered stat's table gets row i // thin set to that stat's value in the new state, and every other table is unchanged |
| Chain.StatRowAt | mcmc/metropolis.py:381-388 | when saving, once some iteration has written row r of a registered stat's table, the row holds the stat as it stood after the last such iteration |
| Chain.RunStatRows | mcmc/metropolis.py:381-388 | after a complete saving run, row r of every registered stat's table holds the stat's value after iteration r * thin + thin - 1, the same iteration sample row r holds |
| Chain.IndexThinOverruns | mcmc/metropolis.py:381-382 | for n = 5, thin = 2, i = 4: i % thin == 0 but i // thin equals n // thin, one past the last row, while n % thin != 0 keeps the code from saving |
| Chain.StepScales | mcmc/metropolis.py:358-360 | an iteration changes prop_S only when _current_iter is a multiple of tune_interval below tune, and then by the tuner |
| Chain.ScalesStayPositive | mcmc/metropolis.py:358-360 | positive proposal scales stay positive through any number of iterations |
| Chain.ShortHorizonNeverTunes | mcmc/metropolis.py:358-359 | with tune <= tune_interval, including the default tune = 0, a run never changes prop_S |
| Metropolis.Metropolis1dStep.RecordStats | mcmc/metropolis.py:384-388 | the stats dictionary becomes the recorded dictionary: each registered stat's row holds the live field value |
| Metropolis.Metropolis1dStep.Advance | mcmc/metropolis.py:276-346 | the object's state becomes the reference roll/mark/accept phase of its old state; on accept x is overwritten by the candidate in place |
| Metropolis.Metropolis1dStep.Refresh | mcmc/metropolis.py:348-356 | the column sums, ratios and global ratio become the reference refresh of the old state |
| Metropolis.Metropolis1dStep.MaybeTune | mcmc/metropolis.py:358-360 | prop_S is tuned exactly when the trigger fires; the state is the reference tune phase |
| Metropolis.Metropolis1dStep.MaybeSave | mcmc/metropolis.py:380-389 | when n % thin == 0, x and the stats are stored in row i // thin; the state is the reference save phase |
| Metropolis.Metropolis1dStep.Tick | mcmc/metropolis.py:390-391 | the counter advances by one and nothing else changes |
| Metropolis.Metropolis1dStep.Iteration | mcmc/metropolis.py:270-391 | one pass of the loop body moves the object's state exactly as the reference Step |
| Metropolis.Metropolis1dStep.Start | mcmc/metropolis.py:243-266 | after initialize_arrays and the set-up, the object's state is the reference start state |
| Metropolis.Metropolis1dStep.Loop | mcmc/metropolis.py:270-391 | after the loop the object's state is the reference state after all the iterations |
| Metropolis.Metropolis1dStep.MirroredBounds | mcmc/metropolis.py:349-353 | the window and ratio bounds of the reference state hold of the object's fields that mirror it |
| Metropolis.Metropolis1dStep.Run | mcmc/metropolis.py:217-394 | the object ends in the reference run's final state; the counter is n + 1; accept within propose; 0 <= accept sum <= propose sum <= tune_interval; defined ratios in [0, 1]; the global ratio is accepted / n |

## Left out

- Metropolis.Metropolis1dStep.constructor: the parameter `initialScale` stands for the caller assigning the `prop_S` attribute, which `__init__` never sets. The `n_vars`, `verbose` and `show_stats` arguments of `__init__` are not modelled, and the `nVars` the constructor sets is provisional until `InitializeArrays` sets it to x0.size.
- The user-supplied `proposal`, `logprior` and `loglikelihood` are foreign callables. Their results at each iteration (candidate, log-prior, log-likelihood) are inputs of the `Draw`. The values at x0 are parameters of `Run`.
- The random number `u` and the floating-point test `log(u) < ...` are left out. The accept decision is the boolean input `accepted`.
- The `-inf` prior short-circuit, where the likelihood is not evaluated, only decides whether a foreign function is called. The log-likelihood is an input either way.
- Where a window column has no proposals, numpy leaves the ratio entry unspecified. Those entries are the input `unsetRatios`, and no property constrains them.
- Printing and verbose output are console I/O and are left out, `print_stats` and the `show_stats` report included.
- The `datetime` timing of `duration` reads the wall clock and is left out.
- `reset`, `initialize`, the `MCMCBase` base class and its constructor arguments are not part of this model. `_init_prop_S` is never set in the code shown.
- The run-time `getattr` lookup of stat fields is modelled as the closed enumeration `StatName` with a total map to fields. The same goes for the integer `n_params` of the catalog width.
- `int(i / thin)` uses float division. It is modelled as integer division, which agrees for the iteration counts a run can reach.
- Floats are modelled as mathematical reals: no rounding, NaN or infinity.
- The stats dictionary of numpy tables is a map of sequences of rows, and the window matrices are sequences of rows. `np.roll` builds a new matrix that the attribute is rebound to, so nothing else can observe the old one. The sample table and `prop_S` are arrays updated in place.
- Metropolis.Metropolis1dStep.Run: requires `prop_S` to have one entry per variable and to be a different array from x0. The source takes both for granted: `tune` indexes `prop_S` by variable, and the position is copied into x0 in place.
- Metropolis.Metropolis1dStep.Run: requires `thin > 0`, and `tune_interval > 0` when n > 0. With those values zero the source raises (division by zero, or an index into an empty window) instead of returning, and the model does not represent exceptions.
