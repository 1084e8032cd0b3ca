# believer: parity-check matrix and best-code finder

This project models two parts of the `believer` crate, a Rust library for
low-density parity-check codes, and proves properties of the model.

- **The sparse parity-check matrix** (`ParityCheck`, `parity_check_matrix.dfy`).
  A matrix over GF(2) is stored row-compressed. `row_ranges[i]..row_ranges[i + 1]`
  is the range of `column_indices` that holds the columns of row `i`'s
  non-zero entries.
  - `ParityCheckMatrix::new` builds this layout from a list of `(row, col)`
    positions with one loop. It is modelled as the method `New`.
  - `New` is proved equal to `Build`, a left fold of the loop body (`Step`,
    with `Pad` for the inner padding loop) followed by the final push
    (`Close`).
  - `Build` is then related to a reference layout. `Offsets` says that row
    `i` starts after every position in an earlier row. `ColsInRow` gives the
    columns of a row in input order.
  - `row_slice` is the function `RowSlice`.
  - `Slice::dot` is the method `Dot`. A field element is a `bool` and
    addition is exclusive or.
- **The best-code finder** (`BestCodeFinder`, `best_code_finder.dfy`).
  `BestCodeFinderUsingErasure` is a class whose builder setters update its
  fields.
  - The two private finders, one per stopping policy, are the single class
    `PolicyFinder`, tagged by a `StoppingPolicy`. In the source they are
    identical except for the simulation call.
  - A search draws one `u64` seed per candidate from the caller's source,
    in index order, before any evaluation. It generates and simulates
    candidate `i` from a source seeded with seed `i`. It reduces the
    candidates with `get_best_between`, starting from
    `(None, worse_result())`.
  - The reduction is modelled as a left fold over the candidate indices.
    `ParallelReduceIsSequential` proves that every way the parallel
    reduction can split the work gives the same result.

The caller's random source is a value of a type parameter `R` with a `draw`
function. The code generator, the decoder's two simulations, the seeded
sub-source and the simulation result are function values held in
`Collaborators` and `SearchConfig`. The result type is known only through
`is_better_than` and `worse_result`. Properties of the search assume that
`is_better_than` is a strict weak order (`StrictWeakOrder`) and that no
result is worse than `worse_result()` (`WorstIsBottom`).

In three places the code does something a quick reading would not suggest;
the model follows the code:
- An empty position list gives `row_ranges == [0, 0]`, which is one empty
  row, not a matrix with no row (`New`, fourth `ensures`).
- On a tie, `get_best_between` keeps its second operand, so the last of
  equally good candidates wins (`GetBestBetween`, `ReduceKeepsLastOfBest`).
  For the same reason, a search where every candidate ties with
  `worse_result()` still returns `Some` code, although the doc comment at
  `src/generators/best_code_finder.rs:101-103` says "none".
- Skipped rows do not always get empty ranges. See Findings. `New` models
  the loop as written. `NewZeroPadded` is the corrected loop, and the
  row-slice results are proved for it on every input sorted by row.

## Model

| member | source | states |
|---|---|---|
| ParityCheck.New | src/parity_check_matrix.rs:24-51 | Returns exactly the fold of the loop body plus the closing push. Offsets start at 0, never decrease and number at least two. The columns are the input's columns in input order. Empty input gives `[0, 0]` and no column. For input sorted by row with no skipped row after a non-empty row, the offsets are the reference offsets and every row range lies inside the column vector. |
| ParityCheck.PadRows | src/parity_check_matrix.rs:36-39 | The padding loop as written pushes the last offset plus `rowLength` once per skipped row, exactly what `Pad` gives. The active row becomes `row` when `row` is larger and is otherwise unchanged. |
| ParityCheck.PadRowsZero | src/parity_check_matrix.rs:36-39 | The corrected padding loop: its first push closes the open row with the last offset plus `rowLength`, and every later push adds 0, so the skipped rows get empty ranges. The active row moves as in `PadRows`. |
| ParityCheck.PadRepeatsRowLength | src/parity_check_matrix.rs:36-39 | The padding loop appends one offset per skipped row and keeps the earlier ones. Each appended offset is `rowLength` past the previous one, so every skipped row after a non-empty row gets a range of that row's length. |
| ParityCheck.PadZero | src/parity_check_matrix.rs:36-39 | Padding after an empty open row repeats the last offset: the skipped rows get empty ranges. |
| ParityCheck.RunInvariant | src/parity_check_matrix.rs:32-43 | After any prefix of the input, the loop state has `row_ranges[0] == 0`, non-decreasing offsets, and the columns pushed so far in input order. |
| ParityCheck.BuildInvariant | src/parity_check_matrix.rs:24-51 | For every input, offsets start at 0, never decrease and number at least two, and `column_indices` is the input's columns in order. |
| ParityCheck.BuildWellFormed | src/parity_check_matrix.rs:24-51 | For sorted input with no skipped row after a non-empty row: one range per row up to the last row, row `i` starting after exactly the positions of earlier rows, and the closing offset equal to the number of positions. |
| ParityCheck.RunMatchesZeroPadded | src/parity_check_matrix.rs:32-43 | On such input, the loop as written and the zero-padding loop reach the same state after every prefix. |
| ParityCheck.GapOvershoots | src/parity_check_matrix.rs:36-39 | Positions (0,0), (2,0) give offsets `[0, 1, 2, 3]` over two columns, so row 2's range is out of bounds. The zero-padding build gives `[0, 1, 1, 2]`. |
| ParityCheck.BuildZeroPaddedOffsets | src/parity_check_matrix.rs:24-51 | With zero-length padding, for EVERY input sorted by row, the offsets are the reference offsets and the columns are the input columns. |
| ParityCheck.NewZeroPadded | src/parity_check_matrix.rs:24-51 | `new` with the padding loop corrected, so the row length is reset after the first push. For EVERY input sorted by row, rows skipped after a non-empty row included, the offsets are the reference offsets and every row range lies inside the column vector. |
| ParityCheck.Get | src/parity_check_matrix.rs:54-55 | `Vec::get`: `Some` exactly when the index is in range, holding that element. |
| ParityCheck.RowSlice | src/parity_check_matrix.rs:53-61 | `None` exactly when `row + 1` is not a valid offset index. Otherwise, a slice whose length is the difference of the two offsets. |
| ParityCheck.ColsInRowContiguous | src/parity_check_matrix.rs:32-43 | For input sorted by row, a row's columns are one contiguous run of the input columns. The run lies between the counts of positions below the row and below the next row. |
| ParityCheck.RowSliceOfOffsets | src/parity_check_matrix.rs:53-61 | For sorted input laid out with the reference offsets, `row_slice(r)` is in bounds. It is `Some` of exactly row `r`'s columns, in input order, up to the last row, and `None` beyond it. |
| ParityCheck.OffsetsInBounds | src/parity_check_matrix.rs:53-61 | When the offsets count the positions below each row and there is one column per position, `row_slice` never slices out of bounds, for any input order. |
| ParityCheck.RowSliceOfBuild | src/parity_check_matrix.rs:53-61 | For a matrix built from well-formed input, `row_slice(r)` is `Some` of exactly row `r`'s columns in input order for every row up to the last one, and `None` beyond it. |
| ParityCheck.RowSliceOfBuildZeroPadded | src/parity_check_matrix.rs:53-61 | The same for the corrected build, for every input sorted by row. |
| ParityCheck.Dot | src/parity_check_matrix.rs:69-75 | B1 exactly when an odd number of the slice's in-range positions index a B1 of `other`. Out-of-range positions are skipped, and an empty slice gives B0. |
| ParityCheck.HitsConcat | src/parity_check_matrix.rs:69-75 | The dot product is additive over concatenated slices: the product over `a + b` is the GF(2) sum of the two products. |
| ParityCheck.RepetitionCodeRows | src/parity_check_matrix.rs:83-88 | The test's repetition-code positions are well formed, with rows `[0, 1]` and `[1, 2]`. |
| ParityCheck.DotProductExample | src/parity_check_matrix.rs:82-92 | The `dot_product` test: built with `New`, row 0 dotted with `[B0, B1, B1]` gives B1 and row 1 gives B0. |
| BestCodeFinder.SampleSeeds | src/generators/best_code_finder.rs:251-256 | Exactly `n` seeds; seed `i` is the `i`-th draw of the caller's source, which advances by exactly `n` draws. |
| BestCodeFinder.GetRngFor | src/generators/best_code_finder.rs:258-260 | The index is in bounds at every call (the seed list has one seed per candidate), and the sub-source is `seed_from_u64` of that candidate's seed. |
| BestCodeFinder.SimulateOneCodeWithRng | src/generators/best_code_finder.rs:262-267 | The pair always holds `Some` code, namely the code the generator produced from the candidate's source. |
| BestCodeFinder.GetBestBetween | src/generators/best_code_finder.rs:269-275 | Returns `first` exactly when its result is strictly better than `second`'s, and `second` otherwise, so a tie goes to `second`. |
| BestCodeFinder.ReduceRange | src/generators/best_code_finder.rs:245-248 | One worker's fold from `(None, worse_result())`: an empty run gives the identity, and any run gives the identity or one of its own candidates. |
| BestCodeFinder.Candidates | src/generators/best_code_finder.rs:241-244 | The map step: exactly one candidate per index. Each carries a code and is the simulation from the sub-source of that index's seed. |
| BestCodeFinder.GetBestBetweenKeepsBest | src/generators/best_code_finder.rs:269-275 | Neither operand is strictly better than the operand kept. |
| BestCodeFinder.GetBestBetweenAssociative | src/generators/best_code_finder.rs:245-248 | `get_best_between` is associative, which the parallel reduction relies on. |
| BestCodeFinder.ReduceKeepsBest | src/generators/best_code_finder.rs:245-248 | No candidate is strictly better than the reduction's result. |
| BestCodeFinder.ReduceKeepsLastOfBest | src/generators/best_code_finder.rs:245-248 | A non-empty reduction returns one of the candidates, strictly better than every later candidate: the last of the best wins. |
| BestCodeFinder.ReduceSplit | src/generators/best_code_finder.rs:239-248 | Reducing two adjacent runs separately and combining them in order equals reducing the whole run. |
| BestCodeFinder.ParallelReduceIsSequential | src/generators/best_code_finder.rs:239-248 | For every split tree of the parallel reduce, the result equals the sequential left fold from `(None, worse_result())`. |
| BestCodeFinder.TwoCandidates | src/generators/best_code_finder.rs:269-275 | With two candidates, the first wins exactly when it is strictly better, else the second. |
| BestCodeFinder.Search | src/generators/best_code_finder.rs:237-249 | With no candidate the search is `(None, worse_result())`. |
| BestCodeFinder.SearchFindsBest | src/generators/best_code_finder.rs:237-249 | With at least one candidate the search returns `Some` code. The pair is the result of one candidate's simulation, and no candidate's result is strictly better. |
| BestCodeFinder.BestCodeFinderUsingErasure.FromCodeGenerator | src/generators/best_code_finder.rs:45-51 | Keeps the generator, with erasure probability 0.5 and no candidate. |
| BestCodeFinder.BestCodeFinderUsingErasure.AmongNCodes | src/generators/best_code_finder.rs:68-71 | Sets the number of candidates and leaves the probability unchanged. |
| BestCodeFinder.BestCodeFinderUsingErasure.WithErasureProb | src/generators/best_code_finder.rs:88-94 | Accepts exactly the probabilities in [0, 1] and stores them. Refuses any other and changes nothing. The candidate count is unchanged either way. |
| BestCodeFinder.BestCodeFinderUsingErasure.FindBestCodeSimulatingNIterationsWithRng | src/generators/best_code_finder.rs:119-127 | The result is the search under the n-iterations policy over the first `n_codes_to_try` draws of the caller's source, which advances by exactly that many draws. |
| BestCodeFinder.BestCodeFinderUsingErasure.FindBestCodeSimulatingNEventsWithRng | src/generators/best_code_finder.rs:178-186 | The same as above, under the n-events policy. |
| BestCodeFinder.PolicyFinder.From | src/generators/best_code_finder.rs:224-230 | Target 0 and no seed. |
| BestCodeFinder.PolicyFinder.WithTarget | src/generators/best_code_finder.rs:232-235 | Sets the target and leaves the seeds unchanged. |
| BestCodeFinder.PolicyFinder.InitializeRandomSeedsWithRng | src/generators/best_code_finder.rs:251-256 | Stores one seed per candidate, drawn in order, and advances the caller's source by that many draws. |
| BestCodeFinder.PolicyFinder.FindWithRng | src/generators/best_code_finder.rs:237-249 | Draws all seeds first, then returns the map/reduce over every candidate index, each candidate simulated from its own seed. |
| BestCodeFinder.Reproducibility | src/generators/best_code_finder.rs:346-378 | Under either policy, two searches from copies of the same caller source return equal pairs. |

## Left out

- Threads: the rayon parallel iterator is modelled as a left fold plus a
  proof that every split tree gives the same result. Scheduling and sharing
  between threads are not modelled.
- `ChaCha8Rng`, `thread_rng` and the `Standard` distribution are not
  modelled. The caller's source is a value with a `draw` function, and
  `seed_from_u64` is an opaque function value.
- `find_best_code_simulating_n_iterations` and
  `find_best_code_simulating_n_events` (src/generators/best_code_finder.rs:150-152
  and src/generators/best_code_finder.rs:210-212) are left out. They only pass
  the process-wide `thread_rng` to the `_with_rng` versions, which are
  modelled.
- The code generator, `ErasureDecoder` (including `take_code`, modelled as
  returning the code it was given) and `SimulationResult` are not part of
  this model. The search's properties assume that `is_better_than` is a
  strict weak order with `worse_result()` at the bottom.
- The erasure probability is a `real`, not an `f64`. NaN, which passes the
  source's range check, is not modelled.
- `usize` is an unbounded `nat`. Overflow of offsets, rows and counts is not
  modelled.
- The GF(2) element type is not modelled. It is `bool`, with `+` as
  exclusive or.
- ParityCheck.RowSlice: requires that the two offsets form a valid range
  inside `column_indices`. The source panics otherwise; for every matrix
  built from well-formed input the requirement holds (`New`,
  `RowSliceOfBuild`).
- BestCodeFinder.BestCodeFinderUsingErasure.WithErasureProb: the panic is a
  `Fail` outcome that leaves the finder unchanged.
- The builders consume and return `self`. In the model they are methods
  that update the object in place.

## Findings

| source | as written | input that shows it | evidently intended | confidence | as-written member | corrected member |
|---|---|---|---|---|---|---|
| src/parity_check_matrix.rs:36-39 | Each skipped row pushes the last offset plus the length of the row just closed. A row gap after a non-empty row therefore gives the skipped rows ranges of that length, and the offsets overrun `column_indices`. | positions (0,0), (2,0): offsets `[0, 1, 2, 3]` over two columns; `row_slice(2)` would slice `2..3` of a length-2 vector | the first push closes the open row and later pushes repeat it, so skipped rows are empty: `[0, 1, 1, 2]` | not executed | ParityCheck.GapOvershoots | ParityCheck.NewZeroPadded |
