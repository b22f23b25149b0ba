# 3dcvo: verified model of the stacking, smoothing and pose-integration core

3dcvo estimates a vehicle's trajectory from a monocular image sequence. A
convolutional network regresses body-frame velocities (forward, lateral, yaw
rate) from stacks of consecutive frames, and a script integrates the
predictions into poses in the KITTI odometry format. This project models the
sequential logic around the network, in Dafny:

- `main.py`
  - `stack_images`: overlapping windows of `stack_size` frames, concatenated
    along the channel axis into a zero-initialised array by nested loops.
  - `load_odometry`: nine fixed fields of a whitespace-separated record.
  - the trim in `load_data` that pairs stack `i` with record `i`.
- `scripts/create_results_file.py`
  - `averaged_prediction`: harmonic-decay fusion of `stack_size` predictions.
  - `calc_poses`: dead reckoning over the fused predictions.
  - `write_poses`: one line of twelve numbers per pose.

Modules, one file each:

| file | module | models |
|---|---|---|
| results.dfy | Results | `Option` and `Result` |
| text.dfy | Text | `str.split()`, `' '.join`, and the lines of a text |
| slices.dfy | Slices | `xs[:stop]`, including negative stops |
| stacking.dfy | Stacking | `stack_images`, over an `array3` (stack, pixel, channel) |
| odometry.dfy | Odometry | `load_odometry` and the target side of `load_data` |
| smoothing.dfy | Smoothing | `averaged_prediction` and its weights |
| integration.dfy | Integration | `calc_poses`: the step of each window, the integrated states and the poses |
| serialization.dfy | Serialization | `write_poses`, with a reader that inverts it |

How the model stands in for the code:

- Imperative code is imperative Dafny.
  - `stack_images` is a method over an `array3<real>`: a frame's rows and
    columns are one pixel axis.
  - `averaged_prediction` and `calc_poses` are methods with loops. Each is
    proved equal to a specification function (`Fused`, `Poses`), and the
    properties are lemmas about those functions.
  - `write_poses` is a method that builds up the file text line by line.
- `float()` and `str()` are parameters: `parse: string -> Option<real>` and
  `show: real -> string`.
- `sin` and `cos` are the two function-valued fields of a `Trig` value.
  `Trig.Anchored()` states `sin 0 = 0` and `cos 0 = 1`, and lemmas assume it
  only where they need it.
- `curr_pos` starts as the list `[0, 0]`. On the first pass `curr_pos +=
  trans_global` rebinds it to a float array, because numpy's addition takes a
  list on its left, and later passes add in place. The loop therefore sums
  the position as a vector, and the model keeps it as two reals.
- `x % (2 * np.pi)` is `Wrap`: it is computed with `Floor`, and its constant is
  the literal value of `2 * np.pi`.
- Errors the code raises are `Result` values:
  - `IndexError` and `ValueError` in `load_odometry`;
  - an empty frame list, a negative `np.zeros` dimension, or a mismatched slice
    in `stack_images`;
  - a missing time stamp in `calc_poses`.

Where the code departs from its documented design, the model follows the code:

- Step `i` of `calc_poses` fuses `predictions[i .. i+stack_size-1]`, the
  windows that start at `i` and after. It does not fuse the windows that cover
  step `i`.
- `calc_poses` emits no origin pose. It emits one pose per step, after the
  step.
- `calc_poses` drops the last `stack_size` predictions, not `stack_size - 1`.
  With `stack_size = 0` it makes no steps at all (`NumSteps`).
- With `stack_size = 1`, the window duration `stamps[i] - stamps[i]` is zero.
  The code does not degenerate to "prediction over its own duration". The
  model reports `ZeroWindowDuration` (see Left out).
- The documented "identity pose" for zero motion is `RestPose`. Its entry
  (1,1) is 0, because row 1 of every pose is zero.

## Model

| member | source | states |
|---|---|---|
| Text.SplitTokens | main.py:47 | every piece of `str.split()` is a non-empty run of non-whitespace characters |
| Text.SplitJoinSuffix | scripts/create_results_file.py:68 | splitting `' '.join(tokens)`, with or without the trailing newline, gives back exactly the tokens |
| Text.JoinNoBreak | scripts/create_results_file.py:68 | joining tokens with spaces produces no line break, so each pose stays on one line |
| Text.LinesCons | scripts/create_results_file.py:68-69 | a line written with its newline comes off the front of the text as one line |
| Text.LinesUnlines | scripts/create_results_file.py:66-69 | writing break-free lines one after another, each with its newline, and cutting the text at its newlines gives back exactly those lines |
| Stacking.StacksShape | main.py:53-56 | there are `N - s + 1` stacks; each has the first frame's pixel count, `channels * s` channels, and is rectangular |
| Stacking.WindowBlock | main.py:56-58 | entry `j * channels + k` of a pixel's window is entry `k` of frame `i + j` |
| Stacking.StackBlock | main.py:56-58 | in stack `i`, channel block `j` is frame `i + j`, so the earliest frame is the first block |
| Stacking.StackTiles | main.py:55-58 | every channel `c` of every stack is channel `c % channels` of frame `i + c / channels`, so no initial zero survives |
| Stacking.CopyBlock | main.py:58 | the slice assignment writes frame `f` into channels `offset .. offset+channels-1` of stack `i` and leaves every other cell unchanged |
| Stacking.PlaceFrame | main.py:57-58 | one pass of the inner loop writes frame `i + j` into channel block `j` of stack `i`, so blocks `0 .. j` hold their frames; the channels of stack `i` past block `j` and every other stack keep their values |
| Stacking.FillStack | main.py:57-58 | the inner loop succeeds iff frames `i .. i+s-1` have the first frame's shape; it then leaves stack `i` holding its window, and other stacks are unchanged |
| Stacking.StackImages | main.py:52-59 | fails exactly when and how `Stacks` fails (empty input, negative dimension, shape mismatch); otherwise it returns a fresh `(N-s+1) x pixels x (channels*s)` array holding `Stacks` cell by cell |
| Odometry.PickFieldsOk | main.py:48-49 | picking succeeds iff every index is present and its token parses, and the values come in index order |
| Odometry.PickFieldsMissing | main.py:49 | an index beyond the tokens makes the pick fail |
| Odometry.LoadOdometryFields | main.py:47-49 | the record loads iff it has at least 23 tokens and the nine chosen ones parse; the result is exactly the tokens 8, 9, 10, 14, 15, 16, 20, 21, 22 parsed, in order |
| Odometry.ShortRecordFails | main.py:47-49 | a record of fewer than 23 tokens fails; one of at most 8 tokens fails with `MissingField(8)` |
| Odometry.TrimTargets | main.py:71 | the corrected trim keeps the first `N - s + 1` targets, unchanged and in order |
| Odometry.TrimAgrees | main.py:71 | for `s >= 2` the slice as written equals the corrected trim |
| Odometry.TrimAsWrittenDropsAll | main.py:71 | for `s = 1` the slice as written, `[:-0]`, is empty, while the corrected trim keeps all `N` targets |
| Odometry.LoadTargets | main.py:67 | gives one target per record in order, or fails with the first failing record and its cause, all earlier records having loaded |
| Odometry.LoadDataAligned | main.py:66-71 | for `s >= 1` there are as many targets as stacks (`N - s + 1`), and stack `i` is paired with the record of frame `i` |
| Smoothing.AddShare | scripts/create_results_file.py:20-21 | the inner loop over `k` adds `predictions[idx+j]` with weight `Weight(s, j)` = (1/(j+1) + ... + 1/s) / s |
| Smoothing.AveragedPrediction | scripts/create_results_file.py:17-22 | the nested accumulation loop computes `Fused`, the combination of `predictions[idx+j]` with weights `Weight(s, j)` |
| Smoothing.WeightsDecrease | scripts/create_results_file.py:19-21 | every weight is positive, and the weight of offset `j` is strictly larger than that of offset `j + 1` |
| Smoothing.WeightsSumToOne | scripts/create_results_file.py:17-22 | the `s` weights sum to exactly 1 |
| Smoothing.FusedBetween | scripts/create_results_file.py:17-22 | on every axis the fused value lies between any bounds of the window's values (a convex combination) |
| Smoothing.FusedConstant | scripts/create_results_file.py:17-22 | a window of equal predictions `v` fuses to `v` |
| Smoothing.FusedSingle | scripts/create_results_file.py:17-22 | with `stack_size = 1` the fusion is `predictions[idx]` |
| Smoothing.FusedLocal | scripts/create_results_file.py:17-22 | the fusion reads only `predictions[idx .. idx+s-1]` |
| Integration.Wrap | scripts/create_results_file.py:52 | the wrapped yaw lies in `[0, 2*pi)`, and a yaw already there is unchanged |
| Integration.WrapShift | scripts/create_results_file.py:52 | wrapping the running yaw before adding an increment gives the same result as wrapping once at the end |
| Integration.NumSteps | scripts/create_results_file.py:33 | `len(predictions[:-s])` is 0 for `s = 0` and `max(0, n - s)` otherwise |
| Integration.NumStepsBounds | scripts/create_results_file.py:33-38 | a step `i` exists only for `s >= 1`, and then `i + s - 1 <= n - 2`, so the fusion reads inside the predictions |
| Integration.StampsInBounds | scripts/create_results_file.py:33-36 | with `s >= 2` and `len(stamps) >= len(predictions) - 1`, stamps `i + 1` and `i + s - 1` exist and `i + s - 1 <= n - 2` |
| Integration.StepsUpToError | scripts/create_results_file.py:33-39 | the run fails iff some step fails, and then with the error of the first failing step |
| Integration.StepsSucceed | scripts/create_results_file.py:35-39 | with `s >= 2`, enough stamps and strictly increasing stamps, every step succeeds |
| Integration.PosesDefined | scripts/create_results_file.py:25-62 | under the same conditions the whole run succeeds with `NumSteps` poses |
| Integration.StackSizeOneFails | scripts/create_results_file.py:35-39 | with `stack_size = 1` and two or more predictions the run fails: `ZeroWindowDuration(0)` when two stamps exist, `MissingStamp(0)` otherwise |
| Integration.IntegrateStep | scripts/create_results_file.py:44-52 | each state is the previous one advanced: translation rotated by the yaw before the update, then `yaw = Wrap(yaw + yaw_local)`, which is in `[0, 2*pi)` |
| Integration.IntegrateClosedForm | scripts/create_results_file.py:41-52 | after step `k` the position is the sum of every displacement rotated by the heading before its step, and the yaw is the wrapped sum of all yaw increments |
| Integration.IntegrateStill | scripts/create_results_file.py:41-52 | steps without motion keep every state at the origin, whatever `sin` and `cos` are |
| Integration.ZeroPredictionsRest | scripts/create_results_file.py:38-58 | all-zero predictions put every state at the origin and, with `sin 0 = 0` and `cos 0 = 1`, make every pose `RestPose` |
| Integration.IntegrateStraight | scripts/create_results_file.py:44-52 | without lateral or yaw motion, x and yaw stay 0 and y is the sum of forward displacements, since `rot(0) = [[0,1],[1,0]]` |
| Integration.StraightAhead | scripts/create_results_file.py:38-52 | predictions without lateral or yaw velocity give that straight-line trajectory |
| Integration.ConstantTurn | scripts/create_results_file.py:41-52 | turning in place at constant `w` keeps the position at the origin, with yaw `Wrap((k+1) * w)` after step `k` |
| Integration.ExampleRun | scripts/create_results_file.py:25-62 | stamps `[0,1,2,3,4]`, `s = 2`, and four predictions `(1,0,0)` give two poses, at 1 and at 2 along y, with yaw 0 |
| Integration.Poses | scripts/create_results_file.py:25-62 | a successful run returns `NumSteps` poses, none for the origin |
| Integration.AdvanceParts | scripts/create_results_file.py:44-52 | the loop's arithmetic on `curr_pos` and `yaw_global` performs one `Advance` |
| Integration.NextStep | scripts/create_results_file.py:35-42 | the first part of a loop pass returns `StepAt`: `MissingStamp` when a stamp is out of range, `ZeroWindowDuration` for a zero window, otherwise the fused prediction over the window duration, times the step duration |
| Integration.CalcPoses | scripts/create_results_file.py:25-62 | the loop returns `Poses`: the error of the first failing step, or one pose per step built from the updated state |
| Serialization.FlattenShaped | scripts/create_results_file.py:68 | flattening a 3x4 pose gives 12 numbers, with entry `(r, c)` at position `4r + c` |
| Serialization.RowsFlatten | scripts/create_results_file.py:68 | reshaping the flattened entries into three rows of four gives back the pose |
| Serialization.WritePoses | scripts/create_results_file.py:65-69 | the loop writes `Document`: each pose's line, in order |
| Serialization.ReadPoseLine | scripts/create_results_file.py:68 | a pose line splits into its 12 rendered entries, in row-major order, and reads back as the pose |
| Serialization.EntriesNoBreak | scripts/create_results_file.py:68 | a pose whose entries render as tokens gives a line without a break |
| Serialization.DocumentLines | scripts/create_results_file.py:66-69 | the lines of the file are the poses' joined entries, one line per pose |
| Serialization.DocumentUnlines | scripts/create_results_file.py:66-69 | the written file is the poses' lines, in order, each followed by a newline |
| Serialization.ReadWritten | scripts/create_results_file.py:65-69 | reading the written file back gives exactly the poses written |
| Serialization.PoseShaped | scripts/create_results_file.py:54-58 | every pose is a 3x4 matrix |
| Serialization.PoseLineLayout | scripts/create_results_file.py:54-69 | a pose line reads `cos 0 sin x 0 0 0 0 -sin 0 cos y` |
| Serialization.WrittenTrajectory | scripts/create_results_file.py:25-69 | the file written from a run has one line per step; read back, entries (0,3) and (2,3) are each step's position, and the rotation entries are the cosine and sine of its yaw |

## Left out

- Image loading (`load_image`: cv2 decoding and normalisation), the directory listing and name sort in `load_data`, and all file opening and writing are I/O. A `Sample` carries an already loaded frame and the text of its record. `write_poses` produces the text of the file.
- The network and its tooling (`build_model`, training, `load_model`, `predict`, `train_test_split`), the `train`, `filename_loaders` and `plot` modules, `parse_args`, `main` and the plotting set-up. They are opaque or are glue: the scaled predictions and the stamps are inputs.
- `float()` and `str()` are abstract parameters. The round trip is proved for any pair that renders entries as tokens and reads them back.
- Floating point is not modelled. Arithmetic is on `real`: the `float32` cast of the pose, the precision of `sin`, `cos` and `%`, and rounding in the averaging.
- Only the ASCII whitespace characters count as separators in `Text.Split`. The other Unicode separators are left out.
- A negative `stack_size` is not modelled: stack sizes are `nat`.
- Stacking.Stacks: a frame whose shape differs from the first frame's is a `ShapeMismatch`, including shapes numpy would broadcast into the slot (a one-channel frame, say). Rows and columns are one pixel axis, so two frames with the same pixel count but different rows and columns are not told apart.
- Integration.StepAt: a window of zero duration is reported as `ZeroWindowDuration`. numpy would instead go on with infinite or undefined values.
- Smoothing.Fused: for `stack_size = 0` the result is the zero vector, where the code returns the scalar `0.0`. `calc_poses` never fuses with that stack size.
- The unpacking `vel_y, vel_x, vel_yaw = ...` is modelled by the three fields of `Vec3`. A prediction of another length is not represented.
- The `positions` list of `calc_poses` is never read, and is not modelled.

## Findings

| source | as written | input that shows it | evidently intended | confidence | as-written member | corrected member |
|---|---|---|---|---|---|---|
| main.py:71 | `odom_data[:-stack_size+1]` with `stack_size = 1` is `odom_data[:0]`, which is empty, while `stack_images` returns one stack per frame | any `N >= 1` records with `stack_size = 1` | keep the first `N - stack_size + 1` records (`odom_data[:len(odom_data)-stack_size+1]`) | high; not executed | Odometry.TrimAsWrittenDropsAll | Odometry.TrimTargets |

The rest of the model uses the corrected member: `Odometry.LoadData` trims
with `TrimTargets` for every `stack_size >= 1`. The code as written is kept
beside it as `Odometry.TrimAsWritten`.
