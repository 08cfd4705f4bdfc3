# info_geo in Dafny

A model of the core of `info_geo`, a Python toolkit of information-geometry measures for time series, with proofs about that model.

## The measures

**Information rate.** The central measure is the squared information rate between successive windows of a signal, `4 · Σ (√p_{t+1} − √p_t)² · Δx / Δt²`. Here `p_t` is the probability density of window `t`, estimated by an equal-width histogram. The model covers six variants:

- **Adjacent windows, collective.** One pair of windows from an N-signal ensemble. 1-D: `adj_collect_inforate_square`. 2-D: `adj2d_collect_inforate_square`.
- **Fixed range.**
  - One series: `fix_single_inforate_square`.
  - Pooled channels: `fix_collect_inforate_square`.
  - Two ensembles on a 2-D grid: `fix_double_inforate_square`.
- **Spectral.** Over STFT columns: `inforate_square_stft`.

**Shannon-entropy summaries.** Two drivers window two 1-D signals and compute the rate series. They then histogram the square root of the rates and report the Shannon entropy of that pmf, optionally normalised by the entropy of the uniform pmf. These are `adj2d_inforate_shannon_entro` and `fix2d_phase_inforate_shannon_entro`.

**Smaller measures:**

- Dispersion entropy: `disper_entropy` and `map_func`.
- The phase-entropy sector pmf: `phase_en_pmf`.
- The histogram of the strict upper triangle of a distance matrix: `any_dist_his`.
- Band power of an FFT spectrum: `fft_power`.
- The phase-lock matrix: `phase_lock_matrix`.
- The sign-fixed leading eigenvector of each time slice: `lead_eigvec_cal` and `lead_eigvec_cal_optimized`.
- Mapping values to indices by sort and binary search: `find_indices`.

## How the model is built

Floating point is modelled as exact `real`. Numerical library routines the code calls become parameters, because their bodies are not part of this model:

- `sqrt`, `log`, `cos` and `arctan` are `real -> real` parameters. Where a proof needs a fact about one, it is a named `requires` predicate: `Entropy.LogLike` or `PhaseEnPmf.ArctanLike`.
- The outputs of `scipy.signal.stft`, `hilbert`/`unwrap`, `scipy.linalg.eigh`, `norm.cdf` and sklearn `pairwise_distances` are inputs.

`np.histogram` and `np.histogram2d` with `density=True` are modelled exactly, in module `Histogram`:

- `linspace` edges.
- A degenerate range widened by one half on each side.
- A right-closed last bin.
- Density as count / total / width.

Python behaviour is modelled as follows:

- A raised Python error becomes an `Err` of `Common.Error`.
- A NaN result (a density over no samples, a pmf over a zero sum) becomes `Err(NotFinite)`.
- A shape or type `assert` of the source becomes a `requires`.
- Negative Python indices are modelled by `Common.PyIndex`.
- joblib `Parallel` fan-outs are sequential maps in index order.

Module by module:

- **Pure code** is datatypes, functions and lemmas. Each function's contract states its result and its error cases.
- **`phase_lock_matrix`** fills a preallocated array in place. It is a method over an `array3<real>` with nested loops and their invariants.
- **`phase_en_pmf`** corrects angles by masked in-place additions. It is a method over an `array`, proved equal to a specification function whose properties are lemmas.
- **`Common`, `Histogram`, `InfoRate`, `Binning`, `Windowing`, `Entropy`** hold what several source files share. `InfoRate` holds the rate functional and its properties. `Entropy` holds the entropy summariser.

## Model

| member | source | states |
|---|---|---|
| Common.PyIndex | info_geo/_AdjCollectInforateSquare.py:51 | an index i into n items is valid iff -n <= i < n, and a negative one counts from the end |
| Common.Array2.Stamps | info_geo/_AdjCollectInforateSquare.py:69 | the time stamps time[a,0] and time[b,0] exist iff the time array has a column |
| Common.Array3.Window | info_geo/_AdjCollectInforateSquare.py:54 | `data[:, i, :]` flattened: N x W samples |
| Common.Array3.WindowMembers | info_geo/_AdjCollectInforateSquare.py:54 | the samples of window i of an N x T x W array are exactly the data[c, i, j] |
| Common.FlattenRowsMembers | info_geo/_FixCollectInforateSquare.py:63-64 | the flattened row t of channel blocks holds exactly the samples blocks[c][t][j] |
| Common.SeqMin | info_geo/_AdjCollectInforateSquare.py:51 | the minimum is an element of the sequence and at most every element |
| Common.SeqMax | info_geo/_AdjCollectInforateSquare.py:51 | the maximum is an element of the sequence and at least every element |
| Binning.Rice | info_geo/_AdjCollectInforateSquare.py:45 | ceil(2 n^(1/3)) as the least k with k^3 >= 8n |
| Binning.CeilLog2 | info_geo/_AdjCollectInforateSquare.py:47 | the least e with 2^e >= n |
| Binning.FloorLog2 | info_geo/_AnyDistHis.py:49 | the e with 2^e <= n < 2^(e+1) |
| Binning.IntSqrt | _Adj2dCollectInforateSquare.py:58-60 | int(sqrt(k)): s*s <= k < (s+1)*(s+1) |
| Binning.SturgesCeil | info_geo/_AdjCollectInforateSquare.py:47 | ceil(1 + log2 n) is defined iff n >= 1, and is then the least r >= 1 with 2^(r-1) >= n |
| Binning.SturgesFloor | info_geo/_AnyDistHis.py:49 | int(1 + log2 n) is defined iff n >= 1, and is then the r with 2^(r-1) <= n < 2^r |
| Binning.RuleCount | info_geo/_AdjCollectInforateSquare.py:42-47 | an integer count passes through; rice gives Rice(n); sturges gives SturgesCeil(n) and fails for n = 0 (log2 0 is -inf) |
| Binning.RuleCountPositive | info_geo/_FixCollectInforateSquare.py:38-43 | both rules give at least one bin for at least one sample |
| Binning.GridRuleCount | _Adj2dCollectInforateSquare.py:55-60 | int/tuple counts pass through; rice and sturges give the integer square root of the 1-D rule on N1*W1 + N2*W2 samples, the same on both axes; sturges over no samples is an OverflowError (`int(inf)`) |
| Windowing.Start | _Adj2dInforateShannonEntro.py:58-59 | window k of a forward stride starts at k*sld; of a negative stride it is taken from the end |
| Windowing.Windows | _Adj2dInforateShannonEntro.py:58-59 | sliding_window_view(x, win)[::sld] is defined iff 0 <= win <= len and sld != 0, and has one window per kept start |
| Windowing.ForwardWindows | _Adj2dInforateShannonEntro.py:58-65 | with sld > 0 window k is x[k*sld : k*sld+win], and it is the last one iff the next start would overrun |
| Windowing.Ensemble | _Adj2dInforateShannonEntro.py:68-69 | np.expand_dims of the windows: a one-signal ensemble whose window k is the k-th window |
| Windowing.SignalWindows | _Adj2dInforateShannonEntro.py:61-69 | the windowed signal as a 1 x nwin x win ensemble |
| Windowing.TimeWindows | _Adj2dInforateShannonEntro.py:58-59 | the windowed time as an nwin x win array |
| Windowing.TimeWindowStart | _Adj2dInforateShannonEntro.py:58-59 | the stamp of window t is time[t*sld] |
| Histogram.OuterEdges | info_geo/_AdjCollectInforateSquare.py:54 | np.histogram's range: an error iff min > max; min == max is widened to an interval around it |
| Histogram.Outer | info_geo/_FixSingleInforateSquare.py:33 | the widened range is a proper interval containing the given one |
| Histogram.Edges | info_geo/_FixSingleInforateSquare.py:33 | bins + 1 increasing edges from lo to hi |
| Histogram.EdgesEvenlySpaced | info_geo/_FixSingleInforateSquare.py:33 | consecutive edges are one bin width apart |
| Histogram.CentresOfEdges | info_geo/_FixSingleInforateSquare.py:34 | one centre per bin, strictly inside its bin, consecutive centres one edge gap apart |
| Histogram.CentresOfLinspace | info_geo/_FixSingleInforateSquare.py:34 | the linspace edges have one centre per bin, and consecutive centres are exactly (hi - lo)/bins apart |
| Histogram.FindBin | info_geo/_FixSingleInforateSquare.py:33 | a sample inside the range falls in a bin (right-closed last bin) |
| Histogram.BinUnique | info_geo/_FixSingleInforateSquare.py:33 | no sample falls in two bins |
| Histogram.BinInRange | info_geo/_FixSingleInforateSquare.py:33 | a sample in a bin lies inside the range |
| Histogram.BinCounts | info_geo/_FixSingleInforateSquare.py:33 | the bin counts add up to the number of samples inside the range |
| Histogram.IntegralEvenlySpaced | info_geo/_FixSingleInforateSquare.py:33 | over evenly spaced edges the integral is the density sum x the bin width |
| Histogram.NormaliseNonNegative | info_geo/_FixSingleInforateSquare.py:33 | normalising non-negative counts gives non-negative densities |
| Histogram.DensityAt | info_geo/_FixSingleInforateSquare.py:33 | bin k of a density is its count divided by in-range total x bin width |
| Histogram.NormaliseIntegral | info_geo/_FixSingleInforateSquare.py:33 | dividing each count by total x width integrates to count sum / total |
| Histogram.HistogramOver | info_geo/_FixSingleInforateSquare.py:33 | a density over fixed edges exists iff some sample is in range (otherwise 0/0) |
| Histogram.HistogramOverIsDensity | info_geo/_FixSingleInforateSquare.py:33 | that density is count / (in-range total x width) per bin |
| Histogram.Histogram1D | info_geo/_AdjCollectInforateSquare.py:54 | np.histogram(range=(a, b), bins, density=True): errors for bins < 1 and for a > b, NaN when no sample is in range, else bins densities over the linspace edges |
| Histogram.Histogram1DIsDensity | info_geo/_AdjCollectInforateSquare.py:54 | the result is a density of the samples over its edges |
| Histogram.DensityNonNegative | info_geo/_AdjCollectInforateSquare.py:54 | every density is >= 0 |
| Histogram.DensityIntegral | info_geo/_AdjCollectInforateSquare.py:54 | the density integrates to 1 over its edges |
| Histogram.DensitySumTimesWidth | info_geo/_AdjCollectInforateSquare.py:54 | sum of densities x bin width == 1 |
| Histogram.HistogramAuto | _Adj2dInforateShannonEntro.py:79 | np.histogram without range: bins over [min, max] of the samples; defined iff there is a sample |
| Histogram.HistogramAutoIsDensity | _Adj2dInforateShannonEntro.py:79 | that result is a density of all the samples |
| Histogram.AllInRange | _Adj2dInforateShannonEntro.py:79 | every sample lies in [min, max], so all are counted |
| Histogram.BinCounts2 | _Adj2dCollectInforateSquare.py:70 | 2-D cell counts add up to the number of pairs inside both ranges |
| Histogram.AllInRange2 | _Adj2dCollectInforateSquare.py:70 | when every pair lies inside both ranges, all of them are counted |
| Histogram.Counts2Tally | _Adj2dCollectInforateSquare.py:70 | a pair inside cell (a, b) adds one to that cell and nothing elsewhere |
| Histogram.Counts2Skip | _Adj2dCollectInforateSquare.py:70 | a pair outside either range changes no count |
| Histogram.Normalise2Integral | _Adj2dCollectInforateSquare.py:70 | dividing each cell count by total x area integrates to count sum / total |
| Histogram.Normalise2Tail | _Adj2dCollectInforateSquare.py:70 | dropping the first x bin of a normalised grid leaves the rest normalised over the remaining edges |
| Histogram.Normalise2CellAt | _Adj2dCollectInforateSquare.py:70 | cell (a, b) is its count divided by total x cell area |
| Histogram.Normalise2NonNegative | _Adj2dCollectInforateSquare.py:70 | normalising non-negative cell counts gives non-negative densities |
| Histogram.Histogram2Over | _FixDoubleInforateSquare.py:55 | a 2-D density over fixed edges exists iff some pair is in range, with b1 x b2 cells |
| Histogram.Histogram2OverIsDensity | _FixDoubleInforateSquare.py:55 | that result is a 2-D density of the pairs |
| Histogram.Density2NonNegative | _FixDoubleInforateSquare.py:55 | every cell density is >= 0 |
| Histogram.Density2At | _FixDoubleInforateSquare.py:55 | cell (a, b) of a 2-D density is its pair count divided by in-range total x cell area |
| Histogram.Density2Integral | _FixDoubleInforateSquare.py:55 | the 2-D density integrates to 1 |
| Histogram.Histogram2D | _Adj2dCollectInforateSquare.py:70 | np.histogram2d: error on unequal sample lengths, bad bins or inverted range; else a density on the two edge ladders |
| Histogram.Histogram2DIsDensity | _Adj2dCollectInforateSquare.py:70 | the result is a 2-D density of the pairs |
| InfoRate.AdjRate | info_geo/_AdjCollectInforateSquare.py:69-74 | the adjacent-window functional 4 Σ((√q-√p)/dt)² dx; its properties are AdjRateNonNegative, AdjRateZero, AdjRateSymmetric and AdjRateIsFixRate |
| InfoRate.FixRate | info_geo/_FixSingleInforateSquare.py:58-62 | the fixed-range functional 4 Σ(√q-√p)² dx/dt²; its properties are FixRateNonNegative, FixRateZero and FixRateSymmetric |
| InfoRate.AdjRate2 | _Adj2dCollectInforateSquare.py:93-99 | the 2-D adjacent functional 4 Σ((√q-√p)/dt)² dx1 dx2; its properties are AdjRate2NonNegative, AdjRate2Zero, AdjRate2Symmetric and AdjRate2IsFixRate2 |
| InfoRate.FixRate2 | _FixDoubleInforateSquare.py:94-99 | the 2-D fixed-range functional 4 Σ(√q-√p)² dx dy/dt²; its properties are FixRate2NonNegative, FixRate2Zero and FixRate2Symmetric |
| InfoRate.AdjRateIsFixRate | info_geo/_AdjCollectInforateSquare.py:71-74 | 4 Σ((√q-√p)/dt)² dx equals 4 Σ(√q-√p)² dx/dt², the form of the fixed-range variants |
| InfoRate.SqGapSum | info_geo/_FixSingleInforateSquare.py:58-62 | Σ(√q-√p)² is >= 0 |
| InfoRate.TermForms | info_geo/_AdjCollectInforateSquare.py:71-74 | one term: (g/dt)² dx equals g² dx/dt² |
| InfoRate.AdjTermsScale | info_geo/_AdjCollectInforateSquare.py:71-74 | the adjacent sum of terms is the squared-gap sum times dx/dt² |
| InfoRate.SqGapSumSymmetric | info_geo/_FixSingleInforateSquare.py:62 | the squared-gap sum does not depend on the order of the two densities |
| InfoRate.FixRateNonNegative | info_geo/_FixSingleInforateSquare.py:62 | the rate is >= 0 for dx > 0 |
| InfoRate.AdjRateNonNegative | info_geo/_AdjCollectInforateSquare.py:71-74 | the adjacent-window rate is >= 0 for dx > 0 |
| InfoRate.SqGapSumZero | info_geo/_FixSingleInforateSquare.py:58-62 | Σ(√q-√p)² is 0 iff every bin has equal roots |
| InfoRate.FixRateZero | info_geo/_FixSingleInforateSquare.py:62 | the rate is 0 iff the two densities have equal roots bin by bin |
| InfoRate.AdjRateZero | info_geo/_AdjCollectInforateSquare.py:71-74 | the same for the adjacent-window form |
| InfoRate.FixRateSymmetric | info_geo/_FixSingleInforateSquare.py:62 | swapping before and after leaves the rate unchanged |
| InfoRate.AdjRateSymmetric | info_geo/_AdjCollectInforateSquare.py:71-74 | the same for the adjacent-window form |
| InfoRate.AdjRate2IsFixRate2 | _Adj2dCollectInforateSquare.py:98-99 | the 2-D adjacent form equals 4 Σ(√q-√p)² dx dy/dt² |
| InfoRate.AdjTerms2Scale | _Adj2dCollectInforateSquare.py:96-99 | the 2-D adjacent sum of terms is the squared-gap sum times dx dy/dt² |
| InfoRate.SqGapSum2Zero | _FixDoubleInforateSquare.py:99 | the 2-D squared-gap sum is 0 iff the grids have equal roots cell by cell |
| InfoRate.SqGapSum2Symmetric | _FixDoubleInforateSquare.py:99 | the 2-D squared-gap sum does not depend on the order of the two grids |
| InfoRate.FixRate2NonNegative | _FixDoubleInforateSquare.py:99 | the 2-D rate is >= 0 for positive cell sides |
| InfoRate.AdjRate2NonNegative | _Adj2dCollectInforateSquare.py:98-99 | the same for the 2-D adjacent form |
| InfoRate.FixRate2Zero | _FixDoubleInforateSquare.py:99 | the 2-D rate is 0 iff the two grids have equal roots cell by cell |
| InfoRate.AdjRate2Zero | _Adj2dCollectInforateSquare.py:96-99 | the same for the 2-D adjacent form |
| InfoRate.FixRate2Symmetric | _FixDoubleInforateSquare.py:99 | swapping the two grids leaves the 2-D rate unchanged |
| InfoRate.AdjRate2Symmetric | _Adj2dCollectInforateSquare.py:96-99 | the same for the 2-D adjacent form |
| InfoRate.RateSeries | info_geo/_FixSingleInforateSquare.py:58-62 | np.diff along time: T-1 rates, entry t from densities t and t+1 |
| InfoRate.RateSeriesFacts | info_geo/_FixSingleInforateSquare.py:62 | every entry is >= 0, and 0 iff consecutive densities have equal roots |
| InfoRate.RateSeries2 | _FixDoubleInforateSquare.py:94-99 | T-1 rates, entry t from grids t and t+1 of the same shape |
| InfoRate.RateSeries2Facts | _FixDoubleInforateSquare.py:99 | every 2-D entry is >= 0, and 0 iff consecutive grids have equal roots |
| AdjCollect.SharedRange | info_geo/_AdjCollectInforateSquare.py:51 | the range is [min, max] over both windows: it contains every sample of both, and its ends are samples |
| AdjCollect.WindowDensity | info_geo/_AdjCollectInforateSquare.py:54-55 | a window's density on the shared range has bins entries over evenly spaced edges |
| AdjCollect.CentreGap | info_geo/_AdjCollectInforateSquare.py:70 | dx is the gap between the first two centres, one bin width, > 0 |
| AdjCollect.PairRate | info_geo/_AdjCollectInforateSquare.py:69-74 | the rate of two windows is >= 0, and 0 iff their densities on the shared range have equal roots bin by bin |
| AdjCollect.PairRateSymmetric | info_geo/_AdjCollectInforateSquare.py:71-74 | the rate does not depend on which window comes first |
| AdjCollect.PairRateSame | info_geo/_AdjCollectInforateSquare.py:71-74 | two equal windows give rate 0 |
| AdjCollect.WindowStep | info_geo/_AdjCollectInforateSquare.py:63-76 | a rate exists iff there are >= 2 bins and a non-zero dt; the None branch is never taken, since both centre arrays come from the same range and count |
| AdjCollect.AdjCollectRate | info_geo/_AdjCollectInforateSquare.py:27-76 | `adj_collect_inforate_square`: errors for a sturges count over no samples (OverflowError), an index out of range or empty windows; otherwise (rate >= 0, time[i,0]) from windows i and i+1 |
| AdjCollect.AdjCollectRepeat | info_geo/_AdjCollectInforateSquare.py:71-74 | two identical windows in a row give rate 0 |
| Adj2dCollect.Repeat | _Adj2dCollectInforateSquare.py:47-48 | np.tile along the first axis: reps copies, each equal to the original |
| Adj2dCollect.Tile | _Adj2dCollectInforateSquare.py:47-48 | a tiled ensemble has reps x N signals, the same T and W, repeating with period N |
| Adj2dCollect.TileValid | _Adj2dCollectInforateSquare.py:47-48 | tiling keeps the array well-shaped |
| Adj2dCollect.TiledSignal | _Adj2dCollectInforateSquare.py:47-48 | every tiled signal is one of the originals |
| Adj2dCollect.Matched | _Adj2dCollectInforateSquare.py:46-51 | equal shapes pass unchanged; otherwise both become N1 x N2 signals, each keeping its own T and W |
| Adj2dCollect.GridDensity | _Adj2dCollectInforateSquare.py:70-72 | the 2-D density of two windows has the per-axis bin counts over evenly spaced edges |
| Adj2dCollect.JointPair | _Adj2dCollectInforateSquare.py:64-80 | before and after are binned on the same edges: axis 1 from data1's two windows, axis 2 from data2's |
| Adj2dCollect.JointPairSwap | _Adj2dCollectInforateSquare.py:64-80 | swapping before and after swaps the two histograms, since the shared ranges are symmetric |
| Adj2dCollect.PairRate2 | _Adj2dCollectInforateSquare.py:93-99 | the 2-D rate of two window pairs is >= 0 |
| Adj2dCollect.PairRate2Zero | _Adj2dCollectInforateSquare.py:96-99 | it is 0 iff the two grids have equal roots cell by cell |
| Adj2dCollect.PairRate2Symmetric | _Adj2dCollectInforateSquare.py:96-99 | it does not depend on which pair comes first |
| Adj2dCollect.GridStep | _Adj2dCollectInforateSquare.py:84-101 | a rate exists iff both axes have >= 2 bins and dt != 0; neither None branch is taken |
| Adj2dCollect.Adj2dCollectRate | _Adj2dCollectInforateSquare.py:29-101 | `adj2d_collect_inforate_square`: errors for a sturges grid over no samples (OverflowError) or an index out of range; otherwise (rate >= 0, time[i,0]) of the matched ensembles |
| FixRange.Densities | info_geo/_FixSingleInforateSquare.py:53 | every window has a density over [lo, hi] iff each has a sample in range |
| FixRange.DensitiesAt | info_geo/_FixSingleInforateSquare.py:53 | window t's entry is a density of window t |
| FixRange.DensitiesEntry | info_geo/_FixSingleInforateSquare.py:53 | window t's entry is the histogram of window t over the range |
| FixRange.LeadingStamps | info_geo/_FixSingleInforateSquare.py:64 | time[:-1, 0]: T-1 stamps, stamp t is time[t,0] |
| FixRange.SeriesRates | info_geo/_FixSingleInforateSquare.py:58-62 | T-1 rates |
| FixRange.FixSeries | info_geo/_FixSingleInforateSquare.py:52-64 | errors for no windows, bins < 1 or an inverted range; otherwise the rates with the stamps |
| FixRange.SeriesRatesFacts | info_geo/_FixSingleInforateSquare.py:58-62 | entry t uses densities t and t+1, one dx and one dt for all t, is >= 0 and is 0 iff the roots agree |
| FixRange.SeriesBinGap | info_geo/_FixSingleInforateSquare.py:60 | the first centre gap is the bin width (hi - lo)/bins |
| FixSingle.HistogramFunc | info_geo/_FixSingleInforateSquare.py:27-36 | `histogram_func`: bins over [-r, r]; errors for bins < 1 and r < 0; otherwise bins densities and their centres |
| FixSingle.HistogramFuncDensity | info_geo/_FixSingleInforateSquare.py:33 | the densities are a density of the window over [-r, r] |
| FixSingle.HistogramFuncIsOver | info_geo/_FixSingleInforateSquare.py:33 | `histogram_func` is the shared fixed-range histogram at [-r, r] |
| FixSingle.FixSingleRate | info_geo/_FixSingleInforateSquare.py:39-64 | `fix_single_inforate_square`: defined iff the fixed-range series over [-r, r] is; then the T-1 rates with time[:-1, 0] |
| FixSingle.WindowDensityIsHistogramFunc | info_geo/_FixSingleInforateSquare.py:53 | applying `histogram_func` along the windows gives the series' densities |
| FixSingle.FixSingleRateNonNegative | info_geo/_FixSingleInforateSquare.py:62 | every rate is >= 0 |
| FixSingle.FixSingleRateZero | info_geo/_FixSingleInforateSquare.py:58-62 | rate t is 0 iff windows t and t+1 have densities with equal roots |
| FixCollect.RangeAsWritten | info_geo/_FixCollectInforateSquare.py:31-36 | as written: a pair is used in order; a scalar r becomes (r, -r), inverted exactly when r > 0 |
| FixCollect.RangeOf | info_geo/_FixCollectInforateSquare.py:31-36 | corrected: a scalar r becomes (-r, r), ordered iff r >= 0 |
| FixCollect.BySample | info_geo/_FixCollectInforateSquare.py:63 | the samples regrouped by sample index, entry [j][t][c] is data[c][t][j] (numpy's transpose is [t][j][c], the first two axes swapped); `PooledRows` flattens it into the reshape's row order |
| FixCollect.PooledRows | info_geo/_FixCollectInforateSquare.py:63-64 | the reshape pools channels: one row of C*W values per time index |
| FixCollect.PooledMembers | info_geo/_FixCollectInforateSquare.py:63-64 | row t holds exactly the samples data[c][t][j] of all channels |
| FixCollect.FlattenSingletons | info_geo/_FixCollectInforateSquare.py:64 | with one channel the pooled row is the channel's window |
| FixCollect.CollectSeries | info_geo/_FixCollectInforateSquare.py:65-79 | errors for no windows or an undefined rule; otherwise the pooled series |
| FixCollect.FixCollectRateAsWritten | info_geo/_FixCollectInforateSquare.py:51-79 | as written: defined iff the pooled series over the as-written range is |
| FixCollect.AsWrittenRejectsPositiveScalar | info_geo/_FixCollectInforateSquare.py:35-45 | as written, every positive scalar range fails with an inverted range |
| FixCollect.FixCollectRate | info_geo/_FixCollectInforateSquare.py:51-79 | corrected: defined iff the pooled series over the corrected range is; then its rates and time[:-1, 0] |
| FixCollect.PooledOneChannel | info_geo/_FixCollectInforateSquare.py:63-64 | pooling one channel gives that channel |
| FixCollect.OneChannelIsFixSingle | info_geo/_FixCollectInforateSquare.py:51-79 | with one channel, a scalar range and a count, the corrected rate equals `fix_single_inforate_square` |
| FixCollect.FixCollectRateFacts | info_geo/_FixCollectInforateSquare.py:73-77 | entry t is >= 0 and 0 iff consecutive pooled densities have equal roots |
| FixDouble.AxisHalfWidths | _FixDoubleInforateSquare.py:48-53 | a pair gives per-axis half-widths; a scalar the same on both |
| FixDouble.WindowRows | _FixDoubleInforateSquare.py:85 | row t is the flattened window t of all channels |
| FixDouble.PairedRows | _FixDoubleInforateSquare.py:41-46 | equal channel counts pass unchanged; otherwise both rows become C1*C2*W long |
| FixDouble.Densities2 | _FixDoubleInforateSquare.py:55 | every window pair has a 2-D density iff each has a pair in range |
| FixDouble.Densities2At | _FixDoubleInforateSquare.py:55 | entry t is a 2-D density of window pair t |
| FixDouble.Series2Rates | _FixDoubleInforateSquare.py:94-99 | T-1 rates, entry t from grids t and t+1 with one dx, dy and dt |
| FixDouble.FixSeries2 | _FixDoubleInforateSquare.py:84-101 | the error order (no windows, axis-1 bins, axis-1 range, axis-2 bins, axis-2 range), else rates and stamps |
| FixDouble.FixDoubleRate | _FixDoubleInforateSquare.py:62-101 | `fix_double_inforate_square` over [-r1, r1] x [-r2, r2]: defined iff its series is; the mismatch branch is unreachable |
| Stft.LastAtMost | _InforateSquareStft.py:40 | np.where(f <= x)[0][-1]: exists iff some f <= x, and is the last such index |
| Stft.Band | _InforateSquareStft.py:40-41 | lo and hi are the last indices with f <= min and f <= max of the range, lo <= hi |
| Stft.Column | _InforateSquareStft.py:43 | the band magnitudes of one time column, rows lo..hi-1 |
| Stft.ColumnPmf | _InforateSquareStft.py:43 | a non-empty column divided by its sum is >= 0 and sums to 1 |
| Stft.ColumnPdf | _InforateSquareStft.py:44 | the pmf divided by the first frequency gap integrates to 1 |
| Stft.FreqGap | _InforateSquareStft.py:50 | df > 0 |
| Stft.TimeGap | _InforateSquareStft.py:49 | dt > 0 |
| Stft.Pdfs | _InforateSquareStft.py:43-44 | one pdf per time column, each >= 0 and integrating to 1 |
| Stft.AsWrittenRate | _InforateSquareStft.py:48-52 | as written, 4 (Σ diff)² df/dt² is >= 0 and 0 iff the summed root differences cancel |
| Stft.AsWrittenSeries | _InforateSquareStft.py:48-52 | as written: one entry per column pair |
| Stft.FunctionalSeries | _InforateSquareStft.py:48-52 | corrected: one entry per column pair, >= 0, and 0 iff the roots agree bin by bin |
| Stft.StftRateAsWritten | _InforateSquareStft.py:31-54 | as written: the band and index errors, else the rates and stft_time[:-1] |
| Stft.StftRate | _InforateSquareStft.py:31-54 | corrected: the same errors, else the information-rate functional and stft_time[:-1] |
| Stft.OneBinAgrees | _InforateSquareStft.py:52 | with one band bin the two forms agree |
| Stft.AsWrittenMissesSwap | _InforateSquareStft.py:52 | two bins trading their masses give 0 as written, but the functional is 0 only when their roots are equal |
| Entropy.EntrNonNegative | info_geo/_DisperEntropy.py:67-69 | -x log x is >= 0 on [0, 1], 0 at 0 and 1, > 0 strictly between |
| Entropy.NatsNonNegative | info_geo/_DisperEntropy.py:67-69 | the entropy in nats of a pmf is >= 0 |
| Entropy.ScipyEntropy | info_geo/_DisperEntropy.py:67 | scipy `entropy(pk, base)`: a base <= 0 is a ValueError before anything else; otherwise the nats of pk over its sum divided by log(base), NaN when the sum is 0 or log(base) is 0 |
| Entropy.NatsEntropy | info_geo/_DisperEntropy.py:69 | scipy `entropy(pk)` in nats |
| Entropy.SharesInUnit | info_geo/_DisperEntropy.py:67-69 | normalised non-negative shares lie in [0, 1] |
| Entropy.NatsEntropyNonNegative | info_geo/_DisperEntropy.py:69 | entropy in nats is >= 0 |
| Entropy.PointMassNatsZero | info_geo/_DisperEntropy.py:69 | a pmf with one non-zero entry has entropy 0 |
| Entropy.PointMassShare | info_geo/_DisperEntropy.py:69 | normalising a point mass gives 1 at its entry and 0 elsewhere |
| Entropy.ScipyEntropyNonNegative | _Adj2dInforateShannonEntro.py:84-86 | for base > 1 the entropy is >= 0, and > 0 when some entry is strictly between 0 and the total |
| Entropy.Uniform | _Adj2dInforateShannonEntro.py:84 | np.ones(n)/n |
| Entropy.UniformSum | _Adj2dInforateShannonEntro.py:84 | the uniform pmf sums to 1 |
| Entropy.Masses | _Adj2dInforateShannonEntro.py:81 | pmf = density x gap, entry by entry |
| Entropy.SumMasses | _Adj2dInforateShannonEntro.py:81 | the masses sum to the density sum x gap |
| Entropy.PmfTable | _Adj2dInforateShannonEntro.py:79-81 | errors for bins < 1 and for one bin (no centre gap, with or without samples); otherwise defined iff there is a sample; then a pmf of bins masses with its centres |
| Entropy.PmfTableCentres | _Adj2dInforateShannonEntro.py:80 | the centres are evenly spaced by the bin width |
| Entropy.DensityCentres | _Adj2dInforateShannonEntro.py:80-81 | every centre lies inside its bin and the first centre gap is the bin width |
| Entropy.EntropyOf | _Adj2dInforateShannonEntro.py:83-86 | a base <= 0 is a ValueError; without norm, scipy's entropy; with norm, that divided by the uniform pmf's entropy over the same bins |
| Entropy.EntropyNonNegative | _Adj2dInforateShannonEntro.py:83-86 | the (normalised) entropy of a pmf is >= 0 for base > 1 |
| Entropy.FlatEntropyOne | _Adj2dInforateShannonEntro.py:83-84 | the normalised entropy of a uniform pmf is exactly 1 |
| Entropy.FlatShares | _Adj2dInforateShannonEntro.py:84 | a constant pmf normalises to 1/n per entry |
| Entropy.PointMassEntropyZero | _Adj2dInforateShannonEntro.py:83-86 | a point-mass pmf has (normalised) entropy 0 |
| Entropy.Summarise | _Adj2dInforateShannonEntro.py:79-86 | the summary of a rate series: the pmf of its roots, its centres, and its entropy |
| Entropy.DensityMasses | _Adj2dInforateShannonEntro.py:81 | density x bin width is a pmf |
| Entropy.PmfFacts | _Adj2dInforateShannonEntro.py:79-81 | the summariser's pmf has entro_bins entries, each >= 0, summing to 1 |
| Entropy.Table | _Adj2dInforateShannonEntro.py:89-90 | np.vstack((a, b)).T: row k is (a[k], b[k]) |
| Entropy.TableColumns | _Adj2dInforateShannonEntro.py:89-90 | the table's columns give back a and b |
| Entropy.Output | _Adj2dInforateShannonEntro.py:89-93 | the three results: the entropy, the (rate, time) table and the (pmf, centre) table |
| Adj2dShannon.Steps | _Adj2dInforateShannonEntro.py:67-74 | one step per adjacent window pair t, in order: step t is `adj2d_collect_inforate_square` at index t with the same bin count on both axes |
| Adj2dShannon.Gather | _Adj2dInforateShannonEntro.py:67-75 | the steps' results in order, or the first error |
| Adj2dShannon.Unzip | _Adj2dInforateShannonEntro.py:67-76 | zip(*...): the rates and stamps of all steps, in order; none missing |
| Adj2dShannon.Adj2dSeries | _Adj2dInforateShannonEntro.py:58-76 | bad windows fail; otherwise the rate series of the windowed signals |
| Adj2dShannon.Adj2dSeriesRows | _Adj2dInforateShannonEntro.py:67-76 | one rate per window pair, entry t is >= 0 and stamped time[t*sld] |
| Adj2dShannon.RowStamp | _Adj2dInforateShannonEntro.py:67-76 | a step's stamp is the first sample time of its window |
| Adj2dShannon.StepRow | _Adj2dInforateShannonEntro.py:67-74 | a successful step has rate >= 0 and stamp time[t,0] |
| Adj2dShannon.Adj2dShannon | _Adj2dInforateShannonEntro.py:34-93 | `adj2d_inforate_shannon_entro`: the series' errors pass through; otherwise the output of its summary |
| Adj2dShannon.Adj2dShannonSummary | _Adj2dInforateShannonEntro.py:79-93 | the output's data table is the rate series, its pmf is a pmf of entro_bins entries, and its entropy is that pmf's |
| Common.Apply | info_geo/_Fix2dPhaseInforateShannonEntro.py:62-63 | np.cos of the phases (and inforate**0.5 in the Shannon summaries), entry by entry: one output per input, each the function of its own entry |
| Fix2dPhaseShannon.PhaseSeries | info_geo/_Fix2dPhaseInforateShannonEntro.py:65-77 | bad windows fail; otherwise `fix_double_inforate_square` of the two one-signal windowed ensembles |
| Fix2dPhaseShannon.PhaseSeriesRows | info_geo/_Fix2dPhaseInforateShannonEntro.py:77 | the rate series is one shorter than the window count, entry t >= 0 and stamped time[t*sld] |
| Fix2dPhaseShannon.Fix2dPhaseShannon | info_geo/_Fix2dPhaseInforateShannonEntro.py:34-96 | `fix2d_phase_inforate_shannon_entro`: the series' errors pass through; otherwise the output of its summary |
| Fix2dPhaseShannon.Fix2dPhaseShannonSummary | info_geo/_Fix2dPhaseInforateShannonEntro.py:82-93 | the output's tables are the series and a pmf of entro_bins entries, and its entropy is that pmf's |
| DisperEntropy.RoundHalfEven | info_geo/_DisperEntropy.py:29 | np.round: within 1/2 of v, and even on an exact half |
| DisperEntropy.RoundIsNearest | info_geo/_DisperEntropy.py:29 | no integer is nearer, and a tie is the other neighbour only on an exact half |
| DisperEntropy.Classes | info_geo/_DisperEntropy.py:49 | `map_func` applied to every CDF value |
| DisperEntropy.Patterns | info_geo/_DisperEntropy.py:52-53 | length-m windows every d samples: defined iff 0 <= m <= L and d != 0; (L-m)/d + 1 of them |
| DisperEntropy.PatternsStrided | info_geo/_DisperEntropy.py:52-53 | pattern k is the classes at k*d .. k*d+m-1 |
| DisperEntropy.Distinct | info_geo/_DisperEntropy.py:56 | the distinct patterns: no duplicates, the same members, at least one |
| DisperEntropy.Occurrences | info_geo/_DisperEntropy.py:56 | a pattern's count is >= 1 iff it occurs, and 0 otherwise |
| DisperEntropy.IndicatorSum | info_geo/_DisperEntropy.py:56 | a pattern matches exactly one of the distinct rows |
| DisperEntropy.SumOccurrences | info_geo/_DisperEntropy.py:56 | the occurrence counts over the distinct rows add up to the number of patterns |
| DisperEntropy.Counts | info_geo/_DisperEntropy.py:56 | `np.unique(..., return_counts=True)`: one count per distinct pattern (first-occurrence order); CountsPositiveSum states they are >= 1 and sum to the number of patterns |
| DisperEntropy.CountsPositiveSum | info_geo/_DisperEntropy.py:56 | every count is >= 1 and the counts sum to the number of patterns |
| DisperEntropy.PatternPmf | info_geo/_DisperEntropy.py:59-64 | as many entries as patterns: count / patterns, then zeros |
| DisperEntropy.Padded | info_geo/_DisperEntropy.py:59-62 | the counts followed by zeros, one entry per pattern |
| DisperEntropy.PaddedSum | info_geo/_DisperEntropy.py:59-64 | the padded counts are >= 0 and add up to the number of patterns |
| DisperEntropy.PatternPmfIsScale | info_geo/_DisperEntropy.py:64 | the pmf is the padded counts divided by the number of patterns |
| DisperEntropy.PatternPmfIsPmf | info_geo/_DisperEntropy.py:64 | every entry is in [0, 1] and they sum to 1 |
| DisperEntropy.DisperEntropy | info_geo/_DisperEntropy.py:32-71 | `disper_entropy`: bad windows fail; without norm the nats of the pmf; with norm a base c^m <= 0 is a ValueError, otherwise the nats divided by log(c^m) |
| DisperEntropy.DisperEntropyNonNegative | info_geo/_DisperEntropy.py:66-69 | the result is >= 0 |
| DisperEntropy.OneClassZeroEntropy | info_geo/_DisperEntropy.py:48-69 | real CDF values that all map to one class give one distinct pattern and entropy 0 |
| DisperEntropy.SamePatterns | info_geo/_DisperEntropy.py:52-53 | a one-class series gives identical patterns |
| DisperEntropy.OneDistinct | info_geo/_DisperEntropy.py:56 | identical patterns have one distinct row |
| DisperEntropy.OnePattern | info_geo/_DisperEntropy.py:64-69 | one distinct pattern gives entropy 0 |
| PhaseEnPmf.Rises | info_geo/_PhaseEnPmf.py:34 | Yn[k] = Sig[k+2τ] - Sig[k+τ], L-2τ entries |
| PhaseEnPmf.Runs | info_geo/_PhaseEnPmf.py:35 | Xn[k] = Sig[k+τ] - Sig[k], L-2τ entries |
| PhaseEnPmf.Mask | info_geo/_PhaseEnPmf.py:38-40 | the quadrant mask of a sign pair |
| PhaseEnPmf.Shifted | info_geo/_PhaseEnPmf.py:38-40 | a masked `+=` adds delta where the mask holds and nowhere else |
| PhaseEnPmf.RawAngles | info_geo/_PhaseEnPmf.py:37 | arctan(Yn/Xn) per step, or NaN for 0/0 |
| PhaseEnPmf.Angles | info_geo/_PhaseEnPmf.py:37-40 | the quadrant-corrected angles, one per step |
| PhaseEnPmf.CorrectionsCompose | info_geo/_PhaseEnPmf.py:38-40 | the three masked additions in turn give the corrected angles |
| PhaseEnPmf.AddWhere | info_geo/_PhaseEnPmf.py:38-40 | the in-place masked addition leaves the array equal to Shifted of the old one |
| PhaseEnPmf.PhaseEnPmf | info_geo/_PhaseEnPmf.py:27-52 | `phase_en_pmf`: the in-place corrections and the sector loop return the sector pmf of the corrected angles |
| PhaseEnPmf.FillSectors | info_geo/_PhaseEnPmf.py:47-50 | the sector loop fills Si with the sector sums of the corrected angles, one per sector |
| PhaseEnPmf.QuotientSign | info_geo/_PhaseEnPmf.py:37 | the sign of Yn/Xn by quadrant |
| PhaseEnPmf.CorrectedQuadrants | info_geo/_PhaseEnPmf.py:37-40 | each open quadrant maps into its quarter of (0, 2π) |
| PhaseEnPmf.Boundaries | info_geo/_PhaseEnPmf.py:43 | K+1 increasing boundaries from 0 to 2π |
| PhaseEnPmf.SectorSum | info_geo/_PhaseEnPmf.py:48-50 | for a sector starting at or above 0, Si[n] is >= 0, and > 0 when some angle lies strictly inside it |
| PhaseEnPmf.SectorSums | info_geo/_PhaseEnPmf.py:47-50 | K sector sums, entry n over boundaries n and n+1 |
| PhaseEnPmf.Normalised | info_geo/_PhaseEnPmf.py:52 | Si/ΣSi, NaN when the sum is 0 |
| PhaseEnPmf.CoveredInTurn | info_geo/_PhaseEnPmf.py:47-48 | a counted angle lies strictly inside (0, 2π) |
| PhaseEnPmf.DroppedSteps | info_geo/_PhaseEnPmf.py:37-40 | a step with Yn = 0, or with Xn = 0 and Yn < 0, is counted in no sector |
| PhaseEnPmf.SectorsDisjoint | info_geo/_PhaseEnPmf.py:48 | no angle is in two sectors, and an angle on a boundary is in none |
| PhaseEnPmf.Contribution | info_geo/_PhaseEnPmf.py:48-50 | an angle adds itself to sector n exactly when it lies strictly inside it, and 0 otherwise |
| PhaseEnPmf.ContributionSum | info_geo/_PhaseEnPmf.py:47-50 | an angle adds itself to the sector sums once, or not at all |
| PhaseEnPmf.OnlySector | info_geo/_PhaseEnPmf.py:48 | an angle in sector n adds nothing to the other sectors |
| PhaseEnPmf.SectorsPartition | info_geo/_PhaseEnPmf.py:47-50 | the sector sums add up to the sum of the counted angles |
| PhaseEnPmf.TotalWeight | info_geo/_PhaseEnPmf.py:47-52 | every Si >= 0, and ΣSi != 0 iff some angle is counted |
| PhaseEnPmf.NormalisedIsPmf | info_geo/_PhaseEnPmf.py:52 | non-negative sums with a non-zero total normalise to a pmf |
| PhaseEnPmf.PhaseEnPmfIsPmf | info_geo/_PhaseEnPmf.py:47-52 | the result exists iff some angle is counted, and is then a pmf of K entries |
| AnyDistHis.TriangleFrom | info_geo/_AnyDistHis.py:43-44 | the upper-triangle entries of rows r.. in row order |
| AnyDistHis.UpperTriangleSize | info_geo/_AnyDistHis.py:43-44 | n(n-1)/2 distances |
| AnyDistHis.SkipCount | info_geo/_AnyDistHis.py:43-44 | rows r.. of the strict upper triangle hold (n-r)(n-r-1)/2 entries |
| AnyDistHis.TriangleFromAt | info_geo/_AnyDistHis.py:43-44 | dm[i][j], i < j, sits at its row-major position in the rows from r on |
| AnyDistHis.TriangleFromMembers | info_geo/_AnyDistHis.py:43-44 | every entry of rows r.. is some dm[i][j] with r <= i < j |
| AnyDistHis.UpperTriangleAt | info_geo/_AnyDistHis.py:43-44 | entry (i, j), i < j, sits at the row-major position after the earlier rows |
| AnyDistHis.UpperTriangleMembers | info_geo/_AnyDistHis.py:43-44 | every kept distance is some dm[i][j] with i < j |
| AnyDistHis.DistBins | info_geo/_AnyDistHis.py:46-51 | a count passes; rice gives Rice(M); sturges gives the truncated int(1 + log2 M), failing for M = 0 |
| AnyDistHis.AnyDistHis | info_geo/_AnyDistHis.py:31-64 | `any_dist_his`: the rule, bins and emptiness errors; otherwise density, centres, min and max distance over [min(range), max(range)] |
| AnyDistHis.RangeEitherOrder | info_geo/_AnyDistHis.py:53 | the result does not depend on the order of the range pair |
| AnyDistHis.AnyDistHisIsDensity | info_geo/_AnyDistHis.py:53-64 | the density is a density of the kept distances, and min <= max are kept distances |
| AnyDistHis.HistogramFacts | info_geo/_AnyDistHis.py:53-54 | bins densities >= 0 with bins centres, and Σ density x centre gap == 1 |
| AnyDistHis.DensityCheck | info_geo/_AnyDistHis.py:58-61 | the check value is exactly 1, so the warning is never printed |
| AnyDistHis.DensityTimesGap | info_geo/_AnyDistHis.py:59 | sum of densities x first centre gap == 1 |
| FftPower.FirstInBand | _FftPower.py:36-37 | temp_loc[0][0]: the first index with low <= f <= high |
| FftPower.LastInBand | _FftPower.py:36-37 | temp_loc[0][-1]: the last such index |
| FftPower.Squares | _FftPower.py:39 | amp**2, entry by entry, each >= 0 |
| FftPower.BandPower | _FftPower.py:35-40 | `fft_power`: defined iff the slice has two frequencies; then one power per channel, in channel order |
| FftPower.BandPowerNonNegative | _FftPower.py:39-40 | with increasing frequencies every power is >= 0 |
| FftPower.BandTerms | _FftPower.py:37-40 | the squares of the in-band bins other than the top one |
| FftPower.BandTermsSum | _FftPower.py:37-40 | the slice sum equals the sum over in-band bins minus the last one |
| FftPower.BandContiguous | _FftPower.py:36 | with increasing frequencies the band is a contiguous run from first to last |
| FftPower.BandPowerIsBandSum | _FftPower.py:36-40 | power = Σ over in-band bins other than the last of amp² x the first gap |
| FftPower.TopBinIgnored | _FftPower.py:37-38 | changing the last in-band bin's amplitudes does not change the power |
| PhaseLockMatrix.CosDiff | info_geo/_PhaseLockMatrix.py:42-43 | cos(φi(t) - φj(t)) for every t |
| PhaseLockMatrix.Ones | info_geo/_PhaseLockMatrix.py:40 | a tube of ones |
| PhaseLockMatrix.SetTube | info_geo/_PhaseLockMatrix.py:44 | m[i, j, :] = v changes that tube and nothing else |
| PhaseLockMatrix.PhaseLockMatrix | info_geo/_PhaseLockMatrix.py:36-45 | `phase_lock_matrix`: a fresh N x N x T array, every entry written, diagonal 1, symmetric, above the diagonal cos(φi - φj) |
| PhaseLockMatrix.EntryIsCosDiff | info_geo/_PhaseLockMatrix.py:42-45 | for an even cosine every off-diagonal entry is cos of the difference in either order |
| PhaseLockMatrix.LockedSignals | info_geo/_PhaseLockMatrix.py:42-43 | equal phases give 1 when cos(0) = 1 |
| PhaseLockMatrix.EntryBounded | info_geo/_PhaseLockMatrix.py:39-45 | every entry lies in [-1, 1] for a cosine bounded by 1 |
| LeadEigvec.ArgMaxAbs | _LeadEigvecCal.py:36 | np.argmax(np.abs(values)): the first index of largest magnitude |
| LeadEigvec.Column | _LeadEigvecCal.py:40 | vectors[:, k] |
| LeadEigvec.Positives | _LeadEigvecCal.py:46 | v[v > 0]: exactly the positive components |
| LeadEigvec.Negatives | _LeadEigvecCalOptimized.py:39 | v[v < 0]: exactly the negative components |
| Common.Indicator | _LeadEigvecCal.py:50 | `pos == 0.5` as ones and zeros: 1 exactly where the entry equals x |
| LeadEigvec.SignRule | _LeadEigvecCal.py:46-51 | the three branches; the result is v or -v |
| LeadEigvec.SecondConjunctHolds | _LeadEigvecCal.py:50 | once there are positive components Σpos > -Σpos always holds |
| LeadEigvec.HalfTest | _LeadEigvecCal.py:50 | mean(pos == 0.5) != 0 iff 0.5 is a component |
| LeadEigvec.MatchesMean | _LeadEigvecCal.py:50 | the mean of s == x is non-zero iff x is in s |
| LeadEigvec.SignRuleFlips | _LeadEigvecCal.py:46-51 | v is negated iff its positive components average over 1/2 or 1/2 is a component; otherwise unchanged |
| LeadEigvec.NoPositivesUnchanged | _LeadEigvecCal.py:46-47 | a vector with no positive component comes back unchanged |
| LeadEigvec.LeadingColumn | _LeadEigvecCal.py:33-40 | the column of the first eigenvalue of largest magnitude; argmax of nothing fails |
| LeadEigvec.LeadingVector | _LeadEigvecCal.py:27-54 | `job_lead_eigvec_cal`: the leading column, sign-fixed, either it or its negation |
| LeadEigvec.LeadingUnique | _LeadEigvecCal.py:36 | only one index is the first of largest magnitude |
| LeadEigvec.Slice | _LeadEigvecCal.py:32 | matrix[:, :, i] |
| LeadEigvec.LeadEigvecs | _LeadEigvecCal.py:58-70 | `lead_eigvec_cal`: one vector per slice, in time order; N = 0 fails when there is a slice |
| LeadEigvec.LeadEigvecsAreLeading | _LeadEigvecCal.py:58-70 | each output is the leading eigenvector of its slice or its negation |
| LeadEigvecOptimized.Balanced | _LeadEigvecCalOptimized.py:39-40 | the optimised sign rule; the result is v or -v |
| LeadEigvecOptimized.PositivesOfNeg | _LeadEigvecCalOptimized.py:39 | negating turns the negative components into the positive ones |
| LeadEigvecOptimized.NegativesOfNeg | _LeadEigvecCalOptimized.py:39 | negating turns the positive components into the negative ones |
| LeadEigvecOptimized.SumSplit | _LeadEigvecCalOptimized.py:39 | Σv = Σpos + Σneg |
| LeadEigvecOptimized.SumsOfNeg | _LeadEigvecCalOptimized.py:39 | -v's positive sum is v's absolute negative sum, and the other way round |
| LeadEigvecOptimized.BalancedSumNonNegative | _LeadEigvecCalOptimized.py:39-40 | after the rule Σpos >= abs(Σneg), so the components sum to >= 0 |
| LeadEigvecOptimized.BalancedIdempotent | _LeadEigvecCalOptimized.py:39-40 | applying the rule twice changes nothing |
| LeadEigvecOptimized.BalancedSignFree | _LeadEigvecCalOptimized.py:39-40 | unless the sums tie, v and -v give the same result |
| LeadEigvecOptimized.LeadingBalanced | _LeadEigvecCalOptimized.py:25-42 | `job_lead_eigvec_cal_optimized`: the leading column under the balanced rule |
| LeadEigvecOptimized.LeadEigvecsOptimized | _LeadEigvecCalOptimized.py:44-59 | `lead_eigvec_cal_optimized`: one vector per slice, in time order |
| LeadEigvecOptimized.OptimizedAreLeading | _LeadEigvecCalOptimized.py:44-59 | each output is the leading eigenvector or its negation, with component sum >= 0 |
| FindIndices.Range | info_geo/_FindIndices.py:16 | 0 .. n-1 |
| FindIndices.Insert | info_geo/_FindIndices.py:16 | inserting an index adds it to the order's multiset |
| FindIndices.InsertSorted | info_geo/_FindIndices.py:16 | insertion keeps the order sorted by value |
| FindIndices.InsertAtLeast | info_geo/_FindIndices.py:16 | insertion keeps every listed value >= a bound that the new value meets |
| FindIndices.ArgSortPrefix | info_geo/_FindIndices.py:16 | the first n indices, permuted into value order |
| FindIndices.ArgSort | info_geo/_FindIndices.py:16-17 | a permutation of 0..n-1 ordering the values ascending |
| FindIndices.SearchLeft | info_geo/_FindIndices.py:20 | np.searchsorted (left): the first position whose value is >= v |
| FindIndices.Gather | info_geo/_FindIndices.py:17 | original[sorted_indices] |
| FindIndices.FindIndexNumbers | info_geo/_FindIndices.py:16-23 | fails iff some subset value's position is n; otherwise sorted_indices at each position |
| FindIndices.IndexListed | info_geo/_FindIndices.py:16 | every index appears in the sorting permutation |
| FindIndices.FoundIsLeastAtLeast | info_geo/_FindIndices.py:20-23 | the index found holds the least value >= v |
| FindIndices.PresentValueFound | info_geo/_FindIndices.py:16-23 | a value in the original is found, and maps to an index holding that value |
| FindIndices.NotFoundIffAboveAll | info_geo/_FindIndices.py:20-23 | the position is n iff v exceeds every value |
| FindIndices.Decimal | info_geo/_FindIndices.py:25 | str of a natural: digits only, no leading zero |
| FindIndices.DecimalRoundTrip | info_geo/_FindIndices.py:25 | parsing the decimal string gives the number back |
| FindIndices.FindIndices | info_geo/_FindIndices.py:11-25 | `find_indices`: fails iff some subset value exceeds the whole original; otherwise one decimal index per value, at the least value >= it, equal to it when present |
| FindIndices.FoundFacts | info_geo/_FindIndices.py:16-23 | the index-level facts behind `find_indices` |

## Left out

- Floating point. All arithmetic is exact `real`, so rounding, overflow and signed zero are not modelled. NaN and inf outcomes become `Err(NotFinite)` for the whole call, except in `disper_entropy`, where a NaN CDF is not modelled at all (see the DisperEntropy.DisperEntropy line).
- Numerical library routines the code calls are parameters or inputs: `np.sqrt`, `np.log`, `np.cos`, `np.arctan`, `scipy.signal.stft`, `scipy.signal.hilbert` with `np.unwrap`/`np.angle`, `scipy.linalg.eigh`, `scipy.stats.norm.cdf`, and sklearn `pairwise_distances`.
- `np.std` and `np.mean` feed only `norm.cdf` in `disper_entropy`. The CDF values are the input there.
- DisperEntropy.DisperEntropy: a zero-variance series is not modelled. There `norm.cdf` with scale 0 gives NaN for every sample, `map_func` keeps the NaN, and `np.unique` treats NaN rows as all different. Every pattern then has count 1, the pmf is uniform over the n patterns, and the source returns the finite ln(n)/ln(c^m), or ln(n) without norm. The model takes real CDF values, so it cannot express this input. `DisperEntropy.OneClassZeroEntropy` is about CDF values that all map to one class, not about a constant input series.
- joblib `Parallel`/`delayed` and `tqdm` are modelled as a sequential map in index order. Concurrency and progress output are left out.
- `print` diagnostics are not modelled, including the unreachable "Sliding window" message and the `any_dist_his` warning. Only returned values are.
- The `Tx` indicator matrix of `phase_en_pmf` is written but never returned, so it is not modelled.
- Python type checks (`isinstance`, `type(...) ==`) are folded into the Dafny types. The remaining shape asserts are `requires`.
- DisperEntropy.Counts: counts are in first-occurrence order, not `np.unique`'s lexicographic row order. The pmf then differs by a permutation of its non-zero entries, which leaves the entropy unchanged.
- FindIndices.FindIndices: `np.argsort` (quicksort) is taken as any permutation that sorts the values, passed in as a parameter. `FindIndices.ArgSort` builds one such permutation, a stable one. Which index numpy picks among equal values is not modelled.
- LeadEigvec.LeadEigvecs: the eigendecomposition is a parameter. That it returns N eigenvalues and an N x N vector matrix per slice is a `requires`. That the columns are eigenvectors is not stated.
- PhaseLockMatrix.PhaseLockMatrix: below the diagonal the contract states the stored value cos(φj - φi), with the smaller index first. It equals cos(φi - φj) only for an even cosine, which `PhaseLockMatrix.EntryIsCosDiff` proves.
- Entropy.EntropyOf: the upper bound 1 of the normalised entropy is not proved, because it needs concavity of log, which the `log` parameter does not carry. Non-negativity, 1 for the uniform pmf and 0 for a point mass are proved.
- Binning.RuleCount: rice and sturges use exact integer characterisations, so float effects at exact cubes or powers of two are not modelled.
- `_HjorthParas.py`, `info_geo/_AnyDistKde.py` and `info_geo/_PhaseEnPdfRange.py` are not part of this model. Nor is `__init__.py`.

## Findings

| source | as written | input that shows it | evidently intended | confidence | as-written member | corrected member |
|---|---|---|---|---|---|---|
| info_geo/_FixCollectInforateSquare.py:35-36 | a scalar range r becomes the pair (r, -r), passed to `np.histogram` as (min, max) | any r > 0, e.g. the default 1.05: the range (1.05, -1.05) has max < min, and `np.histogram` raises ValueError | the symmetric range (-r, r), as in the other fixed-range variants | high; not executed | FixCollect.AsWrittenRejectsPositiveScalar | FixCollect.FixCollectRate |
| _InforateSquareStft.py:52 | the root differences are summed over frequency before squaring: 4 (Σ_k Δ√p_k)² df/dt² | two band bins whose masses swap between columns, pdf (u, v) then (v, u) with √u != √v: the sum of differences cancels to 0, though the distribution changed | 4 Σ_k (Δ√p_k)² df/dt², the functional of every other variant | medium; not executed | Stft.AsWrittenMissesSwap | Stft.StftRate |
