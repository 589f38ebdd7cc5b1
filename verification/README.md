# ETSformer experiment driver: the deterministic rules of `Exp_Main`

This project is a Dafny model of the small, exactly statable rules inside the
experiment driver of an ETSformer time-series forecasting harness
(`exp/exp_main.py`). The rest of that file is glue around a deep-learning
framework. The model covers:

- **Optimizer set-up** (`_select_optimizer`). The loop walks
  `named_parameters()` and appends each parameter to one of three groups
  by the suffix of its name: `_smoothing_weight` goes to "smoothing" (tested
  first), `_damping_factor` goes to "damping", and everything else goes to
  "nn". The learning rate of each group is chosen too: the "nn" group gets
  `min_lr` when the schedule name `lradj` contains `warmup`, otherwise
  `learning_rate`. The smoothing and damping groups get their configured
  rate when it is positive, otherwise `100 * learning_rate`.
- **Decoder input.** Each sample's decoder input is the leading `label_len`
  steps of the target series followed by zeros shaped like its trailing
  `pred_len` steps. `vali`, `train` and `test` all use this rule.
- **Scored slice.** Each series is cut to its last `pred_len` steps. In
  feature mode `'MS'` only the last channel is kept (`f_dim = -1`);
  otherwise all channels are kept. `vali` and `train` apply this slice to
  the target only and score the model's output whole; `test` slices both
  the output and the target.
- **Directional agreement.** `test` prints a statistic over the flattened
  predictions and targets. It counts the positions where both values are
  `> 0` or both are `<= 0`, then divides by the number of elements.

Python's slicing is modelled as Python defines it (module `PySlice`). A
negative start counts from the end, and out-of-range bounds are clamped.
`s[-0:]` is the whole of `s`. Learning rates and tensor entries are `real`.
Parameters are an opaque type `P`.

The partition loop is a method (`Optimizer.PartitionParameters`) whose
three accumulators are specified by the function `Optimizer.GroupMembers`.
The lemmas about that function give the promised properties: each parameter
lands in exactly one group, order is preserved within a group, the sizes
add up, and the groups together hold the same multiset of parameters as the
input. The other rules are functions, with lemmas about them.

The decoder input takes the *leading* `label_len` steps of the target series
(`batch_y[:, :label_len, :]`), not the trailing ones; `Batching.DecoderInput`
and its lemmas use the leading steps.

## Model

| member | source | states |
|---|---|---|
| `PySlice.SliceFrom` | exp/exp_main.py:95 | Python's `s[start:]` is a suffix of `s`. Its length is `min(-start, len)` for a negative start and `max(len - start, 0)` otherwise. |
| `PySlice.SliceTo` | exp/exp_main.py:91 | Python's `s[:stop]` is the prefix of length `min(stop, len)`. |
| `PySlice.SuffixSliceMatchesIffEndsWith` | exp/exp_main.py:59-61 | For a non-empty suffix, `k[-len(s):] == s` holds exactly when `k` ends with `s`. This includes names shorter than the suffix, which never match. |
| `PySlice.ContainsIffOccurs` | exp/exp_main.py:40 | The substring test `needle in hay` holds exactly when `needle` occurs at some position of `hay`. |
| `Optimizer.NnRateFollowsWarmup` | exp/exp_main.py:40-43 | The "nn" rate is `min_lr` when `warmup` occurs in `lradj`, and `learning_rate` when it does not. |
| `Optimizer.SmoothingAndDampingRates` | exp/exp_main.py:45-53 | The smoothing rate is the configured rate if it is positive, else `100 * learning_rate`. The damping rate follows the same rule. Neither changes when `lradj` changes, so warmup does not affect the fallback. |
| `Optimizer.RatesArePositive` | exp/exp_main.py:40-53 | If `learning_rate` and `min_lr` are positive, every group's rate is positive. |
| `Optimizer.ClassifyBySuffix` | exp/exp_main.py:59-64 | A name goes to smoothing iff it ends with `_smoothing_weight`. It goes to damping iff it ends with `_damping_factor` and not `_smoothing_weight`. It goes to nn iff it ends with neither. |
| `Optimizer.SuffixesNeverBothMatch` | exp/exp_main.py:59-62 | No name ends with both suffixes, so the order of the two tests never decides a group. |
| `Optimizer.GroupIndicesExact` | exp/exp_main.py:55-64 | A group's positions are strictly ascending indices into the parameter list. An index is listed in a group exactly when its name classifies into that group, so every parameter is in exactly one group. |
| `Optimizer.GroupMembersAtIndices` | exp/exp_main.py:58-64 | Element `j` of a group is the parameter at that group's `j`-th position. The loop therefore keeps the iteration order within each group. |
| `Optimizer.GroupSizesSum` | exp/exp_main.py:55-64 | The sizes of nn, smoothing and damping add up to the number of named parameters. |
| `Optimizer.GroupsPartitionParams` | exp/exp_main.py:55-64 | The three groups together hold exactly the multiset of all parameters: nothing is lost or duplicated. |
| `Optimizer.PartitionParameters` | exp/exp_main.py:55-64 | The loop's three lists are exactly the nn, smoothing and damping members of the input, in iteration order. |
| `Optimizer.SelectOptimizer` | exp/exp_main.py:39-72 | The optimizer receives three groups in the order nn, smoothing, damping. Each group has its name, its rate and exactly its members. |
| `Batching.ZerosLike` | exp/exp_main.py:90 | `zeros_like` has the shape of its argument, and every entry is zero. |
| `Batching.DecoderInputLayout` | exp/exp_main.py:90-91 | The target series has `label_len + pred_len` steps and `pred_len > 0`. The decoder input then has the same length and width, its first `label_len` steps equal those of the target, and its last `pred_len` steps are all zero. The same rule appears at 149-150 and 211-212. |
| `Batching.DecoderInputLength` | exp/exp_main.py:90-91 | For any lengths, the decoder input has `min(label_len, T)` steps plus as many zero steps as `y[-pred_len:]` has. That is all `T` steps when `pred_len == 0`. |
| `Batching.SliceTargetLayout` | exp/exp_main.py:94-95 | With `0 < pred_len <= T`, the scored slice has `pred_len` steps. It keeps one channel in 'MS' mode and all channels otherwise. Each value is the matching value from the tail of the series and its last kept channels. The same rule appears at 155-156 and 216-218. |
| `Batching.SliceTargetZeroHorizon` | exp/exp_main.py:95 | With `pred_len == 0` the slice `y[-0:]` keeps every step of the series. |
| `Batching.EchoedDecoderInputIsZero` | exp/exp_main.py:211-218 | In `test`, where the model output is sliced too (line 217), a model that returns its decoder input unchanged yields an all-zero scored forecast of the scored length and width. In `vali` and `train` the output is not sliced, so such a model's first `label_len` steps are copies of the target (`Batching.DecoderInputLayout`). |
| `Evaluation.SignMatchCount` | exp/exp_main.py:278 | The number of sign-agreeing positions is at most the number of elements. |
| `Evaluation.SignMatchCountIsCardinality` | exp/exp_main.py:278 | The count equals the size of the set of positions where target and prediction are both `> 0` or both `<= 0`. |
| `Evaluation.SignMatchCountFull` | exp/exp_main.py:278 | The count equals the number of elements iff every position agrees. |
| `Evaluation.SignMatchCountSelf` | exp/exp_main.py:278 | When the predictions equal the targets, the count is the number of elements. |
| `Evaluation.SignMatchCountSymmetric` | exp/exp_main.py:278 | Swapping predictions and targets does not change the count. |
| `Evaluation.SignMatchRatio` | exp/exp_main.py:245-278 | The expression at line 278 is a fraction in [0, 1] on non-empty input, and it equals 1 iff every position agrees. On empty input the expression would give `nan` (modelled as `None`), but the program never reaches line 278 with no elements: it raises at lines 231-232 first. |
| `Evaluation.SignMatchPercentage` | exp/exp_main.py:278 | The statistic scaled to a percentage, as the label announces, lies in [0, 100] and equals 100 iff every position agrees. |
| `Evaluation.AllAgreeingPrintsOne` | exp/exp_main.py:278 | When every direction is right, the printed value is 1.0, where a percentage would be 100. |

## Left out

- Model construction and the multi-GPU wrapper (exp/exp_main.py:25-33) are framework calls.
- `data_provider` (exp/exp_main.py:35-37) is an external collaborator. data_provider/data_factory.py is not part of this model. Batch shapes enter the model only as lemma preconditions: the target series has `label_len + pred_len` steps.
- The forward pass, `nn.MSELoss`, `loss.backward()`, gradient clipping, the optimizer step and `zero_grad` (exp/exp_main.py:74-76, 93, 100, 153-170) are autograd and floating-point machinery. The optimizer is modelled only up to the list of groups it receives.
- The loss averaging in `vali` and in `train` (exp/exp_main.py:100-103, 173) is a floating-point mean over framework losses.
- The epoch loop's order (validate, early-stop check, learning-rate adjustment) and the final checkpoint reload (exp/exp_main.py:132-189) are left out. They consist of calls into the framework and into utils/tools.py, which is not part of this model.
- Progress and time printing (exp/exp_main.py:160-166, 172, 177-178) is logging and wall-clock time.
- Checkpoint and result file I/O (exp/exp_main.py:112-114, 186-187, 196, 238-240, 291-295) is file-system plumbing.
- `EarlyStopping`, `adjust_learning_rate` and `metric` live in utils/tools.py and utils/metrics.py, which are not part of this model.
- The batch dimension is left out. Every rule is stated per sample, and a batch applies it to each sample alike.
- Stacking the per-batch predictions and reshaping them to one flat array (exp/exp_main.py:228-232, 245-246) is left out. The sign-agreement statistic is stated directly over the two flat sequences of equal length.
- The reshapes at exp/exp_main.py:231-232 raise an error when there are no test batches or a dimension is zero, so line 278 is never reached with no elements. The model does not capture that error; `Evaluation.SignMatchRatio` gives the value of the expression at line 278 alone, `None` for empty input.
- Floating-point arithmetic is left out. Rates and tensor entries are exact reals, so `100 * learning_rate` and the final division are exact. NaN entries, which agree with nothing in the source's comparison, are not represented.
- The commented-out top/bottom 5% analysis (exp/exp_main.py:244-289, apart from line 278) is dead code.

## Findings

| source | as written | input that shows it | evidently intended | confidence | as-written member | corrected member |
|---|---|---|---|---|---|---|
| exp/exp_main.py:278 | prints `count / num_elements` next to the label "Percentage of Sign Match (% time directionally correct)" and a trailing "%" | predictions equal to the targets, e.g. `[1.0]` and `[1.0]`: the line reads "1.0 %" | a percentage, `100 * count / num_elements`, in [0, 100] | medium, not executed | `Evaluation.AllAgreeingPrintsOne` (on `Evaluation.SignMatchRatio`) | `Evaluation.SignMatchPercentage` |
