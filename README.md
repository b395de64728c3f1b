# lenskit core, modelled in Dafny

This project models four sequential pieces of lenskit (the `lkpy` recommender toolkit) and proves what they promise.

- **Explicit ALS half-epoch** (`als_explicit.dfy`, module `ExplicitAls`). This is how `BiasedMF` re-solves every row of one factor matrix.
  - `_train_update_rows` works on a clone of a slice of `left`. Rows without ratings keep their value; every other row gets the solve of its rating entries.
  - `_train_update_fanout` runs up to 50 rows as one block. For more rows it submits one task per chunk `[start, min(start + size, nrows))`. It then commits the finished blocks back into `left` in submission order and adds up the squared change.
  - The Cholesky solve of a row is an abstract function of the row's entries that may fail (`RowSolver`). A failure raises. In the chunked case, the chunks before the failing one have already been written.
  - Also here: `BiasedMF.__init__`'s bias selection, `new_user_embedding`'s filtering of unknown items and its regularisation choice, and `finalize_scores`.
- **Parallelism configuration** (`parallel_config.dfy`, module `Parallel`, with `pyint.dfy`, module `PyInt`).
  - `_resolve_parallel_config` maps arguments, the three `LK_NUM_*` environment variables and the CPU count to a `ParallelConfig`.
  - The global `_config` and its first-call-wins functions `initialize`, `ensure_parallel_init` and `get_parallel_config` form the class `ParallelRuntime`.
  - `PyInt` models Python's `int(str)` and `//`, on which resolution depends.
- **Vocabulary** (`vocab.dfy`, module `Vocab`). The `Vocabulary` contract that `lenskit/tests/test_vocab.py` asserts: a sorted, duplicate-free key list with the inverse lookups `number` and `term` and their bulk forms.
- **Batch runner** (`batch_runner.dfy`, module `BatchRunner`). `BatchPipelineRunner` and the `InvocationSpec` records its methods append.

`results.dfy` holds the shared `Option` and `Result` types.

## Model

| member | source | states |
|---|---|---|
| ExplicitAls.UpdateRows | lenskit/algorithms/als/explicit.py:164-180 | Returns `end - start` rows, or fails exactly when some row in range has entries and its solve fails. Row `i` sits at offset `i - start`: unchanged with no entries, the solver's result otherwise. `left` is only read (no `modifies`). |
| ExplicitAls.BlockOutcome | lenskit/algorithms/als/explicit.py:164-180 | What `_train_update_rows` gives for `[start, end)`: `end - start` rows, or the solve error exactly when some row with entries fails to solve. |
| ExplicitAls.TrainContext.constructor | lenskit/algorithms/als/explicit.py:164-176 | The context holds `left`, the rows' entries and the row solve, with one row of `left` per matrix row (`nrows`). |
| ExplicitAls.Commit | lenskit/algorithms/als/explicit.py:202 | Slice assignment: `left[start:start + len(block)]` becomes the block and every other row is unchanged. |
| ExplicitAls.SolvedBlockSplit | lenskit/algorithms/als/explicit.py:164-180 | Solving `[a, c)` gives the solves of `[a, b)` followed by those of `[b, c)`. |
| ExplicitAls.ChunkRangesPartition | lenskit/algorithms/als/explicit.py:193-195 | For size ≥ 1 the chunk ranges start at `j * size` and end at `min(start + size, n)`. They are non-empty, at most `size` long, contiguous and ascending, start at 0 and end at `n`. Every row of `[0, n)` lies in exactly one of them. |
| ExplicitAls.ChunkCount | lenskit/algorithms/als/explicit.py:193-194 | `len(range(0, n, size))`: the loop submits `ceil(n / size)` chunks. |
| ExplicitAls.ChunkingDisjoint | lenskit/algorithms/als/explicit.py:193-195 | Ranges of a chunking ascend pairwise, and no row lies in two of them. |
| ExplicitAls.ChunksFromShape | lenskit/algorithms/als/explicit.py:193-195 | The ranges produced from any start form a chunking of `[start, n)`. |
| ExplicitAls.ChunkingCoversFrom | lenskit/algorithms/als/explicit.py:193-195 | Every row from a chunk's start up to `n` lies in some chunk. |
| ExplicitAls.SubmitChunks | lenskit/algorithms/als/explicit.py:192-195 | The submission loop yields exactly the chunk ranges, in order. Each task holds what `_train_update_rows` gives for its range. |
| ExplicitAls.CommitBlock | lenskit/algorithms/als/explicit.py:199-202 | If every block before `s` is committed and the squared change of `[0, s)` is accumulated, then after committing `[s, e)` the same holds up to `e`. |
| ExplicitAls.CommitStep | lenskit/algorithms/als/explicit.py:199-202 | The rows about to be overwritten still hold their old values. Assigning the block extends the committed prefix. The accumulated sum extends to the squared change of the longer prefix. |
| ExplicitAls.CommitChunks | lenskit/algorithms/als/explicit.py:197-204 | The commit loop leaves `left` and returns exactly what `HalfEpoch` gives for more than 50 rows and a positive chunk size. That includes the partial commit when a chunk fails. |
| ExplicitAls.UpdateFanout | lenskit/algorithms/als/explicit.py:184-204 | The new `left` and the returned squared change (or the error) equal `HalfEpoch` of the old `left`, in both the sequential and the chunked branch. |
| ExplicitAls.HalfEpoch | lenskit/algorithms/als/explicit.py:184-204 | The outcome of `_train_update_fanout` as a value. `left` keeps its row count. On success the returned value is the squared change between the old and the new `left`. Up to 50 rows a failure leaves `left` untouched. |
| ExplicitAls.SqDistAppend | lenskit/algorithms/als/explicit.py:197-204 | The squared change of two consecutive parts is the sum of their squared changes. So the per-chunk sum equals the squared change of the whole matrix. |
| ExplicitAls.HalfEpochSuccess | lenskit/algorithms/als/explicit.py:184-204 | A half-epoch succeeds exactly when no row with entries fails and, past 50 rows, the chunk size is positive. Rows with entries then hold their solve and rows without entries are kept, whatever the chunking. The result is the squared change of the whole matrix. |
| ExplicitAls.HalfEpochFailure | lenskit/algorithms/als/explicit.py:185-202 | Up to 50 rows, a failure leaves `left` untouched. A zero chunk size leaves it untouched with a `range` ValueError. Otherwise, with `f` the first failing row, exactly the rows before `f - f % size` hold their solves and all later rows keep their old values. |
| ExplicitAls.ChunkedFailure | lenskit/algorithms/als/explicit.py:197-202 | If chunk `k` fails after successful chunks, the half-epoch result is the committed prefix up to chunk `k`'s start, plus the error. |
| ExplicitAls.FailureInChunk | lenskit/algorithms/als/explicit.py:197-202 | A failing chunk that follows only successful ones holds the first failing row, and its start is that row's chunk start. |
| ExplicitAls.FirstFailure | lenskit/algorithms/als/explicit.py:167-177 | The first row from `from` whose solve fails, or `n`: all rows before it succeed. |
| ExplicitAls.ChunkStartOfAt | lenskit/algorithms/als/explicit.py:193-195 | The chunk start of a row in chunk `k` is chunk `k`'s start. |
| ExplicitAls.FailingChunkStart | lenskit/algorithms/als/explicit.py:193-202 | The chunk that holds the first failing row `f` starts at `f - f % size`, and `f` lies inside that chunk. |
| ExplicitAls.QuotientOfBounds | lenskit/algorithms/als/explicit.py:193-195 | A row between `q * size` and `q * size + size` has quotient `q`, so its chunk starts at `f - f % size`. |
| ExplicitAls.SelectBias | lenskit/algorithms/als/explicit.py:82-85 | A bias is used exactly when `bias` is `True` or a bias model. `True` fits a fresh `Bias(damping)`, a model is kept, and `False`/`None` give no bias. |
| ExplicitAls.NewBiasedMF | lenskit/algorithms/als/explicit.py:64-85 | Stores features, epochs, reg and `save_user_features` as given. `bias=True` makes a damped `BiasModel`, a bias model passed in is kept as it is, and `False` leaves no bias. |
| ExplicitAls.NewBiasedMFDefaults | lenskit/algorithms/als/explicit.py:64-74 | Defaults: 10 epochs, reg 0.1, a bias with damping 5, user features saved. |
| ExplicitAls.UserReg | lenskit/algorithms/als/explicit.py:118-122 | A `(ureg, ireg)` pair gives its first component; a single value is used as it is. |
| ExplicitAls.KnownRatings | lenskit/algorithms/als/explicit.py:112-116 | Only ratings whose item is in the item index are kept. Each kept pair carries an index below the item count. |
| ExplicitAls.KnownRatingsAppend | lenskit/algorithms/als/explicit.py:112-116 | Filtering commutes with concatenation, so kept ratings stay in their original order. |
| ExplicitAls.KnownRatingsMembership | lenskit/algorithms/als/explicit.py:112-116 | `(i, v)` is kept if and only if some rating `(k, v)` names the item at index position `i`. |
| ExplicitAls.KnownRatingsUnknown | lenskit/algorithms/als/explicit.py:112-116 | A rating of an unknown item contributes nothing. |
| ExplicitAls.NewUserEmbedding | lenskit/algorithms/als/explicit.py:107-125 | Solves the known-item ratings (bias-normalised when there is a bias) with the user regularisation. Gives no embedding exactly when that solve fails. The offset is present exactly when there is a bias, and is the one `transform_user` produced. |
| ExplicitAls.FinalizeScores | lenskit/algorithms/als/explicit.py:127-133 | Without a bias the scores are unchanged. With one, they pass through `inverse_transform_user`, with the offset if one is given and without it otherwise. |
| ExplicitAls.EmbeddingOffsetRoundTrip | lenskit/algorithms/als/explicit.py:107-133 | `finalize_scores` is handed exactly the offset that `new_user_embedding` produced for the user. Without a bias, the scores pass unchanged. |
| Parallel.ResolvePrecedence | lenskit/parallel/config.py:97-125 | Each count is the argument, else a non-empty variable, else its default: `min(ncpus, 4)`, `min(ncpus, 8)` or `min(ncpus // processes, 4)`. Resolution fails exactly when a consulted variable does not parse, or the child default divides by zero processes. |
| Parallel.Resolve | lenskit/parallel/config.py:97-125 | Resolution raises only ValueError or ZeroDivisionError. The model tags a ValueError with the variable whose `int()` raised; Python's message quotes the offending text instead. With all three counts given as arguments, the environment and the CPU count play no part. |
| Parallel.FromEnv | lenskit/parallel/config.py:107-114 | An argument wins, and an unset or empty variable leaves the count unset. Otherwise the count is the variable's `int` value, and ValueError is raised exactly when it does not parse. The model tags that error with the variable whose `int()` raised. |
| Parallel.MalformedVariableRaises | lenskit/parallel/config.py:107-108 | A malformed `LK_NUM_PROCS` that is consulted raises ValueError. |
| Parallel.EmptyVariableIgnored | lenskit/parallel/config.py:107-114 | An empty variable behaves exactly like an unset one. |
| Parallel.DefaultsBounded | lenskit/parallel/config.py:116-123 | With nothing given: processes is `min(ncpus, 4)`, threads is `min(ncpus, 8)`, both between 1 and ncpus, and child threads are between 1 and 4. Zero CPUs divide by zero. |
| Parallel.ChildThreadsDefault | lenskit/parallel/config.py:122-123 | The child default is at most 4. It is at least 1 exactly when `0 < processes <= ncpus`, and 0 when processes exceed the CPUs. |
| Parallel.ZeroProcessesRaise | lenskit/parallel/config.py:122-123 | Zero processes with no child count raises ZeroDivisionError. |
| Parallel.FloorDivPositive | lenskit/parallel/config.py:123 | `a // b >= 1` when `0 < b <= a`. |
| Parallel.FloorDivSmall | lenskit/parallel/config.py:123 | `a // b == 0` when `0 <= a < b`. |
| Parallel.ParallelRuntime.constructor | lenskit/parallel/config.py:19 | The module starts with no configuration. |
| Parallel.ParallelRuntime.Initialize | lenskit/parallel/config.py:61-69 | Once configured, a call only warns and leaves the configuration. Otherwise the resolved configuration is stored, or nothing is stored when resolution raises. |
| Parallel.ParallelRuntime.EnsureParallelInit | lenskit/parallel/config.py:84-85 | Configures with defaults only when nothing is configured; otherwise it is a no-op. |
| Parallel.ParallelRuntime.GetParallelConfig | lenskit/parallel/config.py:92-94 | Returns the stored configuration, setting it with defaults first if unset. Every later call returns the same one. A failed resolution leaves the module unconfigured, so the next call tries again. |
| PyInt.FloorDiv | lenskit/parallel/config.py:123 | Python's `//`: the quotient rounded toward negative infinity, for either sign of the divisor. |
| PyInt.Min | lenskit/parallel/config.py:116-123 | `min`: at most both arguments, and equal to one of them. |
| PyInt.ParseInt | lenskit/parallel/config.py:107-114 | A value that parses ends, once stripped, with a digit. A negative result comes from a leading `-`, and a leading `-` never gives a positive result. |
| PyInt.Show | lenskit/parallel/config.py:107-114 | The decimal text `int` reads back: digits only for `n >= 0`, and `-` followed by digits for negative `n`. |
| PyInt.ParseShow | lenskit/parallel/config.py:107-114 | `ParseInt(Show(n)) == Some(n)` for every integer. This is the round trip of the model's `int` and `str`, which have no digit limit. |
| PyInt.ParseGroupUnsigned | lenskit/parallel/config.py:107-114 | A digit group without a sign parses to its value. |
| PyInt.ParseNegGroup | lenskit/parallel/config.py:107-114 | A minus sign followed by a digit group parses to the negated value of the group. |
| PyInt.ParseRejects | lenskit/parallel/config.py:107-114 | A string holding any character other than whitespace, a sign, a digit or an underscore fails to parse. |
| PyInt.ParseBlank | lenskit/parallel/config.py:107-108 | A whitespace-only value is truthy but fails to parse. |
| PyInt.DecimalValueShow | lenskit/parallel/config.py:107-114 | The decimal value of a number's digits is the number. |
| PyInt.StripUnpadded | lenskit/parallel/config.py:107-114 | Stripping a string with no outer whitespace leaves it unchanged. |
| Vocab.Create | lenskit/tests/test_vocab.py:39-46 | The vocabulary of any key list is sorted and duplicate-free. Its keys are those of the list, and its size is the number of distinct keys. |
| Vocab.DistinctCard | lenskit/tests/test_vocab.py:23-26 | A duplicate-free list is as long as its set of keys. |
| Vocab.SortedUnique | lenskit/tests/test_vocab.py:28-29 | Two sorted duplicate-free lists with the same keys are equal. |
| Vocab.CreateIsSortedKeys | lenskit/tests/test_vocab.py:45-46 | The index is the distinct keys in ascending order. |
| Vocab.Insert | lenskit/tests/test_vocab.py:39-43 | Inserting into a sorted key list keeps it sorted, adds the key once, and grows the list only for a new key. |
| Vocab.SortedDistinct | lenskit/tests/test_vocab.py:39-46 | The distinct keys of a list: strictly ascending, with exactly the list's keys. |
| Vocab.Size | lenskit/tests/test_vocab.py:23-26 | `size` and `len` of a vocabulary are its number of distinct keys. |
| Vocab.IndexOf | lenskit/algorithms/als/explicit.py:113-114 | A key's first position, or -1 exactly when it is absent. |
| Vocab.Number | lenskit/tests/test_vocab.py:78-86 | A present key gives its position. An absent key gives a negative number in "negative" mode and KeyError in "error" mode. |
| Vocab.Term | lenskit/tests/test_vocab.py:97-103 | Position `n` gives the `n`-th key. Any `n < 0` or `n >= size` raises IndexError, with no wrap-around. |
| Vocab.NumberOfTerm | lenskit/tests/test_vocab.py:56-67 | `number(term(n)) == n` for every position. |
| Vocab.TermOfNumber | lenskit/tests/test_vocab.py:56-67 | `term(number(k)) == k` for every key. |
| Vocab.NumberIsRank | lenskit/tests/test_vocab.py:56-64 | A key's number is the count of smaller keys, i.e. its position in sorted order. |
| Vocab.CountBelowPrefix | lenskit/tests/test_vocab.py:56-64 | In a sorted list, the `i`-th key has exactly `i` smaller keys. |
| Vocab.Numbers | lenskit/tests/test_vocab.py:110-122 | Same length as the lookup. Each entry is negative only for an absent key, and is otherwise the key's position. In "error" mode it raises KeyError exactly when some key is absent. |
| Vocab.Terms | lenskit/tests/test_vocab.py:129-140 | Same length as the lookup, with `terms(lookup)[i] == term(lookup[i])`. |
| Vocab.NumbersOfTerms | lenskit/tests/test_vocab.py:110-140 | `numbers(terms(lookup)) == lookup` for in-range positions. |
| BatchRunner.InvocationSpecDefaults | lenskit/lenskit/batch/_runner.py:27-41 | A spec built from a name and components has no items and no extra inputs. |
| BatchRunner.PredictSpec | lenskit/lenskit/batch/_runner.py:68-78 | Named "predict-ratings", maps only the component to the output, and asks for the test items with no extra inputs. |
| BatchRunner.RecommendSpec | lenskit/lenskit/batch/_runner.py:80-96 | Named "recommend", maps only the component to the output, with no items and the extra inputs as given. |
| BatchRunner.BatchPipelineRunner.constructor | lenskit/lenskit/batch/_runner.py:60-63 | Stores the pipeline and `n_jobs` (default none) and starts with no invocations. |
| BatchRunner.BatchPipelineRunner.AddInvocation | lenskit/lenskit/batch/_runner.py:65-66 | Appends exactly one spec at the end. The length grows by one and earlier entries are unchanged. |
| BatchRunner.BatchPipelineRunner.Predict | lenskit/lenskit/batch/_runner.py:68-78 | Appends the predict spec. The defaults are "rating-predictor" and "predictions". |
| BatchRunner.BatchPipelineRunner.Recommend | lenskit/lenskit/batch/_runner.py:80-96 | Appends the recommend spec. The defaults are "recommender", "recommendations" and no extras. |
| BatchRunner.BatchPipelineRunner.Run | lenskit/lenskit/batch/_runner.py:98-114 | Returns nothing and changes no state. |

## Left out

- The Cholesky and linear-algebra numerics of `_train_solve_row` and `_train_bias_row_cholesky`. Both are floating-point tensor code, so each is a parameter: a function from a row's entries to an optional row.
- `torch.jit.fork`/`wait` concurrency. Each task's result is computed at submission against the `left` of that moment. Tasks are waited on in submission order, which is also the commit order.
- ExplicitAls.UpdateFanout: returns the squared change. The final square root (`torch.norm` in the sequential branch, `sqrt` after the chunk loop) is not modelled, because Dafny's reals have no square root.
- Positivity of the squared change is not stated. Z3 does not reliably decide the nonlinear real facts this needs, such as `x * x > 0` for `x != 0`.
- The `n == 0` test uses the number of stored entries of a sparse row. What `row.shape` reports for a torch sparse row is not part of this model.
- Progress handles, `pbh_update` and logging. The "already initialized" warning is the `AlreadyInitialized` outcome.
- `Bias` itself, `sparse_ratings`, `TrainingData.create`, `prepare_data` and `als_half_epoch`. Their classes are not part of this model. `Bias.transform_user` and `Bias.inverse_transform_user` are parameters.
- `WorkChunks.create` is not part of this model, so the chunk size is a parameter. A zero size is the `range` ValueError.
- ExplicitAls.UpdateFanout: the chunk size is a `nat`, so a negative `chunk_size` is not modelled. In the source, `range(0, nrows, chunk_size)` is then empty, and past 50 rows the function returns 0.0 with `left` untouched.
- ExplicitAls.SqDistAppend: factor rows and the squared change are exact reals. The source works on float32 tensors, where the per-chunk dot products and `torch.norm` over the whole matrix round differently, so "the per-chunk sum equals the squared change of the whole matrix" holds only for exact arithmetic.
- ExplicitAls.TrainContext.constructor: row widths are not tracked. In the source every row of `left` and every solve result has `nf` entries (`reshape(nf)`); here a `RowSolver` may return a row of any length, and `RowSqDist` compares two rows over their common length.
- ExplicitAls.NewBiasedMF: `rng_spec` is not stored. It is handed to `ALSBase`, whose training setup is not part of this model.
- ExplicitAls.NewUserEmbedding: the pandas index is a list of integer item ids, and `get_indexer_for` is its first position, -1 if absent. A user with no known items is passed to the solver unchanged.
- Parallel.ParallelRuntime.Initialize: the call to `torch.set_num_threads(threads)` after `_config` is assigned is not modelled. If torch rejects a thread count below 1 (as with `LK_NUM_THREADS=0`), the source raises with `_config` already set, while the model reports `Configured` with no error.
- `torch.multiprocessing.set_sharing_strategy`, `torch.set_num_threads`, `threadpool_limits`, `mp.cpu_count` and `os.environ`. The CPU count and the three variables are inputs. A CPU count of 0 is allowed and divides by zero.
- PyInt.ParseInt: only ASCII whitespace and ASCII digits are accepted. Python's `int` also takes other Unicode spaces and digits.
- PyInt.ParseInt: Python's limit on the length of integer text is not modelled. That limit is 4300 digits by default, set by `sys.set_int_max_str_digits` on CPython 3.10.7, 3.11 and later. There `int()` raises ValueError on longer decimal text and `str(n)` raises past the limit, while the model parses and shows integers of any length.
- Vocabulary keys are integers. String and UUID keys are ordered the same way and are not modelled separately.
- Vocab.Terms: requires every position to be in range. The tests only pin down that case.
- BatchRunner.BatchPipelineRunner.AddInvocation: `InvocationSpec` is a value here. The source stores the caller's mutable dataclass by reference, so a caller that later mutates it changes the stored entry; "earlier entries unchanged" holds only in this value model.
- Pipeline internals and `BatchResults`. `run` has no body, so the pipeline and the test data are opaque.
- `lenskit/lenskit/data/bulk.py` and the model, metric and HPF tests. They hold pandas wrappers and checks of floating-point training outcomes.
