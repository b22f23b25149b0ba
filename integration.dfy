/**
 * The pose integrator of scripts/create_results_file.py (`calc_poses`): dead
 * reckoning over the fused predictions.  Each step rotates the body-frame
 * displacement by the yaw held before the step, with the matrix
 * [[sin, cos], [cos, -sin]], adds it to the position, then advances the yaw and
 * wraps it into [0, 2*pi).  `sin` and `cos` are left uninterpreted: they are the
 * two functions of a `Trig` value.
 */
module Integration {
  import opened Results
  import opened Slices
  import opened Smoothing

  /** `2 * np.pi`. */
  const Tau: real := 6.283185307179586

  /** Python's `x % (2 * np.pi)` on reals: the result has the sign of the divisor. */
  function Wrap(x: real): (r: real)
    ensures 0.0 <= r < Tau
    ensures 0.0 <= x < Tau ==> r == x
  {
    x - Tau * ((x / Tau).Floor as real)
  }

  /** Wrapping an intermediate sum changes nothing: (x % T + d) % T == (x + d) % T. */
  lemma WrapShift(x: real, d: real)
    ensures Wrap(Wrap(x) + d) == Wrap(x + d)
  {
    var k := (x / Tau).Floor;
    var y := (x + d) / Tau;
    assert (Wrap(x) + d) / Tau == y - k as real;
    var m := y.Floor - k;
    assert m as real <= y - k as real < m as real + 1.0;
    assert (y - k as real).Floor == m;
  }

  /** The trigonometric functions the integrator calls. */
  datatype Trig = Trig(sin: real -> real, cos: real -> real) {
    predicate Anchored() {
      sin(0.0) == 0.0 && cos(0.0) == 1.0
    }
  }

  /** `curr_pos[0]`, `curr_pos[1]` and `yaw_global`. */
  datatype State = State(x: real, y: real, yaw: real)

  const Origin := State(0.0, 0.0, 0.0)

  /** One step's motion in the body frame: `trans_local` (forward, lateral) and `yaw_local`,
      each a velocity component times the time to the next frame. */
  datatype Step = Step(dy: real, dx: real, dyaw: real)

  /** `trans_local` and `yaw_local`: a velocity held for `duration`. */
  function Motion(vel: Vec3, duration: real): Step {
    Step(vel.vy * duration, vel.vx * duration, vel.vyaw * duration)
  }

  /** `rot.dot([u, v])` with `rot = [[sin(yaw), cos(yaw)], [cos(yaw), -sin(yaw)]]`. */
  function Rotate(t: Trig, yaw: real, u: real, v: real): (real, real) {
    (t.sin(yaw) * u + t.cos(yaw) * v, t.cos(yaw) * u - t.sin(yaw) * v)
  }

  /** The body-frame displacement of a step, rotated by the heading `yaw`. */
  function Displacement(t: Trig, yaw: real, step: Step): (real, real) {
    Rotate(t, yaw, step.dy, step.dx)
  }

  /** One pass of the loop: translate with the current yaw, then update the yaw. */
  function Advance(st: State, step: Step, t: Trig): State {
    var d := Displacement(t, st.yaw, step);
    State(st.x + d.0, st.y + d.1, Wrap(st.yaw + step.dyaw))
  }

  /** The loop's own arithmetic performs one `Advance`. */
  lemma AdvanceParts(t: Trig, x: real, y: real, yaw: real, dy: real, dx: real, dyaw: real,
                     sn: real, cs: real, x2: real, y2: real, yaw2: real)
    requires sn == t.sin(yaw) && cs == t.cos(yaw)
    requires x2 == x + (sn * dy + cs * dx) && y2 == y + (cs * dy - sn * dx)
    requires yaw2 == Wrap(yaw + dyaw)
    ensures State(x2, y2, yaw2) == Advance(State(x, y, yaw), Step(dy, dx, dyaw), t)
  {
  }

  function Last(sts: seq<State>): State {
    if sts == [] then Origin else sts[|sts| - 1]
  }

  /** The state after each step, starting from the origin. */
  function Integrate(steps: seq<Step>, t: Trig): (sts: seq<State>)
    ensures |sts| == |steps|
  {
    if steps == [] then []
    else
      var prev := Integrate(steps[..|steps| - 1], t);
      prev + [Advance(Last(prev), steps[|steps| - 1], t)]
  }

  lemma IntegrateSnoc(steps: seq<Step>, step: Step, t: Trig)
    ensures Integrate(steps + [step], t) == Integrate(steps, t) + [Advance(Last(Integrate(steps, t)), step, t)]
  {
    assert (steps + [step])[..|steps|] == steps;
  }

  /** The sum of the yaw increments of the first `n` steps. */
  function YawSum(steps: seq<Step>, n: nat): real
    requires n <= |steps|
  {
    if n == 0 then 0.0 else YawSum(steps, n - 1) + steps[n - 1].dyaw
  }

  /** The heading before step `n`: the wrapped sum of the increments before it. */
  function Heading(steps: seq<Step>, n: nat): real
    requires n <= |steps|
  {
    Wrap(YawSum(steps, n))
  }

  /** The sums of the first `n` displacements, each rotated by the heading before its step. */
  function TravelX(steps: seq<Step>, t: Trig, n: nat): real
    requires n <= |steps|
  {
    if n == 0 then 0.0 else TravelX(steps, t, n - 1) + Displacement(t, Heading(steps, n - 1), steps[n - 1]).0
  }

  function TravelY(steps: seq<Step>, t: Trig, n: nat): real
    requires n <= |steps|
  {
    if n == 0 then 0.0 else TravelY(steps, t, n - 1) + Displacement(t, Heading(steps, n - 1), steps[n - 1]).1
  }

  lemma YawSumPrefix(steps: seq<Step>, m: nat, n: nat)
    requires m <= n <= |steps|
    ensures YawSum(steps[..n], m) == YawSum(steps, m)
  {
    if m > 0 {
      YawSumPrefix(steps, m - 1, n);
    }
  }

  lemma TravelPrefix(steps: seq<Step>, t: Trig, m: nat, n: nat)
    requires m <= n <= |steps|
    ensures TravelX(steps[..n], t, m) == TravelX(steps, t, m)
    ensures TravelY(steps[..n], t, m) == TravelY(steps, t, m)
  {
    if m > 0 {
      TravelPrefix(steps, t, m - 1, n);
      YawSumPrefix(steps, m - 1, n);
    }
  }

  /** One step from a state given by its running sums. */
  lemma AdvanceSums(before: State, step: Step, t: Trig, tx: real, ty: real, yawSum: real)
    requires before == State(tx, ty, Wrap(yawSum))
    ensures Advance(before, step, t)
      == State(tx + Displacement(t, Wrap(yawSum), step).0, ty + Displacement(t, Wrap(yawSum), step).1,
               Wrap(yawSum + step.dyaw))
  {
    WrapShift(yawSum, step.dyaw);
  }

  lemma IntegrateLast(steps: seq<Step>, t: Trig)
    requires steps != []
    ensures Integrate(steps, t)[|steps| - 1]
      == Advance(Last(Integrate(steps[..|steps| - 1], t)), steps[|steps| - 1], t)
  {
  }

  lemma IntegrateInit(steps: seq<Step>, t: Trig, k: nat)
    requires k < |steps| - 1
    ensures Integrate(steps, t)[k] == Integrate(steps[..|steps| - 1], t)[k]
  {
  }

  /** Dead reckoning in closed form: after step `k` the yaw is the wrapped sum of all yaw
      increments so far, and the position is the sum of every step's displacement rotated
      by the yaw held before that step. */
  lemma {:induction false} IntegrateClosedForm(steps: seq<Step>, t: Trig, k: nat)
    requires k < |steps|
    ensures Integrate(steps, t)[k] == State(TravelX(steps, t, k + 1), TravelY(steps, t, k + 1), Heading(steps, k + 1))
    decreases |steps|
  {
    var n := |steps| - 1;
    var init := steps[..n];
    if k < n {
      IntegrateInit(steps, t, k);
      IntegrateClosedForm(init, t, k);
      TravelPrefix(steps, t, k + 1, n);
      YawSumPrefix(steps, k + 1, n);
    } else {
      IntegrateLast(steps, t);
      var before := Last(Integrate(init, t));
      if n > 0 {
        IntegrateClosedForm(init, t, n - 1);
        TravelPrefix(steps, t, n, n);
        YawSumPrefix(steps, n, n);
        assert before == State(TravelX(steps, t, n), TravelY(steps, t, n), Wrap(YawSum(steps, n)));
        AdvanceSums(before, steps[n], t, TravelX(steps, t, n), TravelY(steps, t, n), YawSum(steps, n));
      } else {
        assert Wrap(0.0) == 0.0;
        AdvanceSums(before, steps[n], t, 0.0, 0.0, 0.0);
      }
    }
  }

  /** After every step the yaw is the previous yaw plus the step's increment, wrapped into
      [0, 2*pi), and the translation used the yaw before the update. */
  lemma IntegrateStep(steps: seq<Step>, t: Trig, k: nat)
    requires k < |steps|
    ensures var sts := Integrate(steps, t);
      var before := if k == 0 then Origin else sts[k - 1];
      && sts[k] == Advance(before, steps[k], t)
      && 0.0 <= sts[k].yaw < Tau
  {
    var sts := Integrate(steps, t);
    var pre := steps[..k + 1];
    assert pre[..k] == steps[..k];
    IntegratePrefix(steps, t, k + 1);
    IntegratePrefix(steps, t, k);
    IntegrateLast(pre, t);
  }

  lemma {:induction false} IntegratePrefix(steps: seq<Step>, t: Trig, n: nat)
    requires n <= |steps|
    ensures Integrate(steps[..n], t) == Integrate(steps, t)[..n]
    decreases |steps|
  {
    if n < |steps| {
      var init := steps[..|steps| - 1];
      IntegratePrefix(init, t, n);
      assert init[..n] == steps[..n];
    } else {
      assert steps[..n] == steps;
    }
  }

  /** How `calc_poses` fails: a missing time stamp (IndexError), or a window whose
      duration is zero, where numpy would go on with infinite or undefined values. */
  datatype PoseError = MissingStamp(step: nat) | ZeroWindowDuration(step: nat)

  /** `len(predictions[:-stack_size])`. */
  function NumSteps(n: nat, s: nat): (r: nat)
    ensures s == 0 ==> r == 0
    ensures 0 < s ==> r == if n <= s then 0 else n - s
  {
    SliceEnd(n, -(s as int))
  }

  /** Step `i` reads predictions `i .. i+s-1` and stamps `i`, `i+1` and `i+s-1`. */
  lemma NumStepsBounds(n: nat, s: nat, i: nat)
    requires i < NumSteps(n, s)
    ensures 1 <= s && i + s <= n - 1
    ensures NumSteps(n, s) == n - s
  {
  }

  /** The input of step `i`, read from the stamps and the fused predictions. */
  function StepAt(preds: seq<Vec3>, stamps: seq<real>, s: nat, i: nat): Result<Step, PoseError>
    requires i < NumSteps(|preds|, s)
  {
    if i + 1 >= |stamps| || i + s - 1 >= |stamps| then Err(MissingStamp(i))
    else
      var duration := stamps[i + 1] - stamps[i];
      var total := stamps[i + s - 1] - stamps[i];
      if total == 0.0 then Err(ZeroWindowDuration(i))
      else Ok(Motion(Divide(Fused(preds, s, i), total), duration))
  }

  lemma StepAtOk(preds: seq<Vec3>, stamps: seq<real>, s: nat, i: nat, prediction: Vec3,
                 total: real, duration: real, vel: Vec3, step: Step)
    requires i < NumSteps(|preds|, s)
    requires i + 1 < |stamps| && i + s - 1 < |stamps|
    requires prediction == Fused(preds, s, i)
    requires total == stamps[i + s - 1] - stamps[i] && total != 0.0
    requires duration == stamps[i + 1] - stamps[i]
    requires vel == Divide(prediction, total)
    requires step == Motion(vel, duration)
    ensures StepAt(preds, stamps, s, i) == Ok(step)
  {
  }

  /** A step that succeeds moves by the fused prediction over the window's duration. */
  lemma StepAtValue(preds: seq<Vec3>, stamps: seq<real>, s: nat, i: nat)
    requires i < NumSteps(|preds|, s)
    requires StepAt(preds, stamps, s, i).Ok?
    ensures i + 1 < |stamps| && i + s - 1 < |stamps| && 1 <= s && i + s <= |preds|
    ensures stamps[i + s - 1] - stamps[i] != 0.0
    ensures StepAt(preds, stamps, s, i).value
      == Motion(Divide(Fused(preds, s, i), stamps[i + s - 1] - stamps[i]), stamps[i + 1] - stamps[i])
  {
    NumStepsBounds(|preds|, s, i);
  }

  lemma MotionStill(total: real, duration: real)
    requires total != 0.0
    ensures Motion(Divide(Zero, total), duration) == Step(0.0, 0.0, 0.0)
  {
  }

  lemma MotionStraight(v: Vec3, total: real, duration: real)
    requires total != 0.0 && v.vx == 0.0 && v.vyaw == 0.0
    ensures Motion(Divide(v, total), duration).dx == 0.0
    ensures Motion(Divide(v, total), duration).dyaw == 0.0
  {
  }

  /** The inputs of the first `n` steps, or the error of the first step that fails. */
  function StepsUpTo(preds: seq<Vec3>, stamps: seq<real>, s: nat, n: nat): (r: Result<seq<Step>, PoseError>)
    requires n <= NumSteps(|preds|, s)
    ensures r.Ok? ==> |r.value| == n
  {
    if n == 0 then Ok([])
    else match StepsUpTo(preds, stamps, s, n - 1)
      case Err(e) => Err(e)
      case Ok(done) =>
        match StepAt(preds, stamps, s, n - 1)
        case Err(e) => Err(e)
        case Ok(step) => Ok(done + [step])
  }

  lemma StepsUpToSnoc(preds: seq<Vec3>, stamps: seq<real>, s: nat, n: nat, done: seq<Step>, step: Step)
    requires n < NumSteps(|preds|, s)
    requires StepsUpTo(preds, stamps, s, n) == Ok(done) && StepAt(preds, stamps, s, n) == Ok(step)
    ensures StepsUpTo(preds, stamps, s, n + 1) == Ok(done + [step])
  {
  }

  lemma {:induction false} StepsUpToFails(preds: seq<Vec3>, stamps: seq<real>, s: nat, i: nat, n: nat)
    requires i < n <= NumSteps(|preds|, s)
    requires StepsUpTo(preds, stamps, s, i).Ok? && StepAt(preds, stamps, s, i).Err?
    ensures StepsUpTo(preds, stamps, s, n) == Err(StepAt(preds, stamps, s, i).error)
  {
    if n > i + 1 {
      StepsUpToFails(preds, stamps, s, i, n - 1);
    }
  }

  lemma {:induction false} StepsUpToOk(preds: seq<Vec3>, stamps: seq<real>, s: nat, n: nat, k: nat)
    requires k < n <= NumSteps(|preds|, s)
    requires StepsUpTo(preds, stamps, s, n).Ok?
    ensures StepAt(preds, stamps, s, k) == Ok(StepsUpTo(preds, stamps, s, n).value[k])
  {
    if k < n - 1 {
      StepsUpToOk(preds, stamps, s, n - 1, k);
    }
  }

  /** A 3x4 pose: rotation about the vertical axis in columns 0 and 2, translation in column 3. */
  type Pose = seq<seq<real>>

  function PoseOf(st: State, t: Trig): Pose {
    [[ t.cos(st.yaw), 0.0, t.sin(st.yaw), st.x],
     [           0.0, 0.0,           0.0,  0.0],
     [-t.sin(st.yaw), 0.0, t.cos(st.yaw), st.y]]
  }

  function PosesOf(sts: seq<State>, t: Trig): (ps: seq<Pose>)
    ensures |ps| == |sts|
  {
    seq(|sts|, k requires 0 <= k < |sts| => PoseOf(sts[k], t))
  }

  lemma PosesOfSnoc(sts: seq<State>, st: State, t: Trig)
    ensures PosesOf(sts + [st], t) == PosesOf(sts, t) + [PoseOf(st, t)]
  {
  }

  /** The trajectory `calc_poses` computes, one state per step, or its error. */
  function Trajectory(preds: seq<Vec3>, stamps: seq<real>, s: nat, t: Trig): Result<seq<State>, PoseError> {
    match StepsUpTo(preds, stamps, s, NumSteps(|preds|, s))
    case Err(e) => Err(e)
    case Ok(steps) => Ok(Integrate(steps, t))
  }

  /** What `calc_poses` returns (with the position accumulated as a vector). */
  function Poses(preds: seq<Vec3>, stamps: seq<real>, s: nat, t: Trig): (r: Result<seq<Pose>, PoseError>)
    ensures r.Ok? ==> |r.value| == NumSteps(|preds|, s)
  {
    match Trajectory(preds, stamps, s, t)
    case Err(e) => Err(e)
    case Ok(sts) => Ok(PosesOf(sts, t))
  }

  /** The body of the loop of `calc_poses` up to `trans_local` and `yaw_local`: the two
      durations, the fused prediction and the velocity it stands for. */
  method NextStep(preds: seq<Vec3>, stamps: seq<real>, s: nat, i: nat) returns (r: Result<Step, PoseError>)
    requires i < NumSteps(|preds|, s)
    ensures r == StepAt(preds, stamps, s, i)
  {
    NumStepsBounds(|preds|, s, i);
    if i + 1 >= |stamps| || i + s - 1 >= |stamps| {
      return Err(MissingStamp(i));
    }
    var duration := stamps[i + 1] - stamps[i];
    var total := stamps[i + s - 1] - stamps[i];
    var prediction := AveragedPrediction(preds, s, i);
    if total == 0.0 {
      return Err(ZeroWindowDuration(i));
    }
    var vel := Divide(prediction, total);
    var step := Motion(vel, duration);
    StepAtOk(preds, stamps, s, i, prediction, total, duration, vel, step);
    return Ok(step);
  }

  /** `calc_poses`, its loop updating the position, the yaw and the list of poses in place. */
  method CalcPoses(preds: seq<Vec3>, stamps: seq<real>, s: nat, t: Trig) returns (r: Result<seq<Pose>, PoseError>)
    ensures r == Poses(preds, stamps, s, t)
  {
    var poses: seq<Pose> := [];
    var x, y := 0.0, 0.0;
    var yaw := 0.0;
    var steps := NumSteps(|preds|, s);
    ghost var done: seq<Step> := [];
    var i := 0;
    while i < steps
      invariant 0 <= i <= steps
      invariant StepsUpTo(preds, stamps, s, i) == Ok(done)
      invariant State(x, y, yaw) == Last(Integrate(done, t))
      invariant poses == PosesOf(Integrate(done, t), t)
    {
      var next := NextStep(preds, stamps, s, i);
      if next.Err? {
        StepsUpToFails(preds, stamps, s, i, steps);
        return Err(next.error);
      }
      var step := next.value;
      var transY, transX, yawLocal := step.dy, step.dx, step.dyaw;
      var sn, cs := t.sin(yaw), t.cos(yaw);
      ghost var x0, y0, yaw0 := x, y, yaw;
      x, y := x + (sn * transY + cs * transX), y + (cs * transY - sn * transX);
      yaw := Wrap(yaw + yawLocal);
      AdvanceParts(t, x0, y0, yaw0, transY, transX, yawLocal, sn, cs, x, y, yaw);
      StepsUpToSnoc(preds, stamps, s, i, done, step);
      IntegrateSnoc(done, step, t);
      PosesOfSnoc(Integrate(done, t), State(x, y, yaw), t);
      done := done + [step];
      poses := poses + [PoseOf(State(x, y, yaw), t)];
      i := i + 1;
    }
    return Ok(poses);
  }

  /** The run fails exactly when some step fails, and then with the error of the first one. */
  lemma {:induction false} StepsUpToError(preds: seq<Vec3>, stamps: seq<real>, s: nat, n: nat)
    requires n <= NumSteps(|preds|, s)
    ensures StepsUpTo(preds, stamps, s, n).Err? <==> exists i :: 0 <= i < n && StepAt(preds, stamps, s, i).Err?
    ensures StepsUpTo(preds, stamps, s, n).Err? ==>
      exists i :: 0 <= i < n && StepAt(preds, stamps, s, i) == Err(StepsUpTo(preds, stamps, s, n).error)
        && forall j :: 0 <= j < i ==> StepAt(preds, stamps, s, j).Ok?
  {
    if n > 0 {
      StepsUpToError(preds, stamps, s, n - 1);
      var prev := StepsUpTo(preds, stamps, s, n - 1);
      if prev.Ok? {
        forall j | 0 <= j < n - 1
          ensures StepAt(preds, stamps, s, j).Ok?
        {
          StepsUpToOk(preds, stamps, s, n - 1, j);
        }
      }
    }
  }

  predicate Increasing(stamps: seq<real>) {
    forall i, j :: 0 <= i < j < |stamps| ==> stamps[i] < stamps[j]
  }

  /** With a window of at least two frames and a stamp for every frame, stamps that strictly
      increase let every step through: no stamp is missing and no window has zero duration. */
  lemma StepsSucceed(preds: seq<Vec3>, stamps: seq<real>, s: nat, i: nat)
    requires 2 <= s && |preds| <= |stamps| + 1 && Increasing(stamps)
    requires i < NumSteps(|preds|, s)
    ensures StepAt(preds, stamps, s, i).Ok?
  {
    StampsInBounds(|preds|, |stamps|, s, i);
    assert stamps[i] < stamps[i + s - 1];
  }

  /** With a window of at least two frames and `len(stamps) >= len(predictions) - 1`, every
      index step `i` reads is in bounds: predictions up to `len(predictions) - 2` and stamps
      `i + 1` and `i + s - 1`. */
  lemma StampsInBounds(n: nat, m: nat, s: nat, i: nat)
    requires 2 <= s && n <= m + 1
    requires i < NumSteps(n, s)
    ensures i + s - 1 <= n - 2
    ensures i + 1 < m && i + s - 1 < m
  {
  }

  lemma PosesDefined(preds: seq<Vec3>, stamps: seq<real>, s: nat, t: Trig)
    requires 2 <= s && |preds| <= |stamps| + 1 && Increasing(stamps)
    ensures Poses(preds, stamps, s, t).Ok?
    ensures |Poses(preds, stamps, s, t).value| == NumSteps(|preds|, s)
  {
    var n := NumSteps(|preds|, s);
    StepsUpToError(preds, stamps, s, n);
    forall i | 0 <= i < n
      ensures StepAt(preds, stamps, s, i).Ok?
    {
      StepsSucceed(preds, stamps, s, i);
    }
  }

  /** With `stack_size == 1` the window duration `stamps[i] - stamps[i]` is zero, so no
      trajectory comes out of two or more predictions. */
  lemma StackSizeOneFails(preds: seq<Vec3>, stamps: seq<real>, t: Trig)
    requires 2 <= |preds|
    ensures Poses(preds, stamps, 1, t).Err?
    ensures 2 <= |stamps| ==> Poses(preds, stamps, 1, t) == Err(ZeroWindowDuration(0))
    ensures |stamps| < 2 ==> Poses(preds, stamps, 1, t) == Err(MissingStamp(0))
  {
    StepsUpToFails(preds, stamps, 1, 0, NumSteps(|preds|, 1));
  }

  /** Steps that do not move leave every state at the origin, whatever `sin` and `cos` are. */
  lemma {:induction false} IntegrateStill(steps: seq<Step>, t: Trig, k: nat)
    requires forall m :: 0 <= m < |steps| ==> steps[m] == Step(0.0, 0.0, 0.0)
    requires k < |steps|
    ensures Integrate(steps, t)[k] == Origin
  {
    IntegrateStep(steps, t, k);
    if k > 0 {
      IntegrateStill(steps, t, k - 1);
    }
    assert Wrap(0.0) == 0.0;
  }

  /** The pose of the origin: the rotation part is the identity on the x and z axes. */
  const RestPose: Pose := [[1.0, 0.0, 0.0, 0.0], [0.0, 0.0, 0.0, 0.0], [0.0, 0.0, 1.0, 0.0]]

  /** Predictions that are all zero give the rest pose at every step. */
  lemma ZeroPredictionsRest(preds: seq<Vec3>, stamps: seq<real>, s: nat, t: Trig)
    requires forall k :: 0 <= k < |preds| ==> preds[k] == Zero
    requires Trajectory(preds, stamps, s, t).Ok?
    ensures forall k :: 0 <= k < |Trajectory(preds, stamps, s, t).value| ==> Trajectory(preds, stamps, s, t).value[k] == Origin
    ensures t.Anchored() ==> forall k :: 0 <= k < |Poses(preds, stamps, s, t).value| ==> Poses(preds, stamps, s, t).value[k] == RestPose
  {
    var n := NumSteps(|preds|, s);
    var steps := StepsUpTo(preds, stamps, s, n).value;
    forall m | 0 <= m < |steps|
      ensures steps[m] == Step(0.0, 0.0, 0.0)
    {
      StepsUpToOk(preds, stamps, s, n, m);
      StepAtValue(preds, stamps, s, m);
      FusedConstant(preds, s, m, Zero);
      MotionStill(stamps[m + s - 1] - stamps[m], stamps[m + 1] - stamps[m]);
    }
    forall k | 0 <= k < |steps|
      ensures Integrate(steps, t)[k] == Origin
    {
      IntegrateStill(steps, t, k);
    }
  }

  /** The forward distance covered by the first `n` steps. */
  function Ahead(steps: seq<Step>, n: nat): real
    requires n <= |steps|
  {
    if n == 0 then 0.0 else Ahead(steps, n - 1) + steps[n - 1].dy
  }

  /** Without lateral or turning motion, and with `sin 0 = 0` and `cos 0 = 1`, the trajectory
      is a straight line along the forward axis: x and yaw stay zero and y is the distance. */
  lemma {:induction false} IntegrateStraight(steps: seq<Step>, t: Trig, k: nat)
    requires t.Anchored()
    requires forall m :: 0 <= m < |steps| ==> steps[m].dx == 0.0 && steps[m].dyaw == 0.0
    requires k < |steps|
    ensures Integrate(steps, t)[k] == State(0.0, Ahead(steps, k + 1), 0.0)
  {
    IntegrateStep(steps, t, k);
    if k > 0 {
      IntegrateStraight(steps, t, k - 1);
    }
    assert Wrap(0.0) == 0.0;
  }

  lemma StraightAhead(preds: seq<Vec3>, stamps: seq<real>, s: nat, t: Trig)
    requires t.Anchored()
    requires forall k :: 0 <= k < |preds| ==> preds[k].vx == 0.0 && preds[k].vyaw == 0.0
    requires Trajectory(preds, stamps, s, t).Ok?
    ensures var steps := StepsUpTo(preds, stamps, s, NumSteps(|preds|, s)).value;
      var sts := Trajectory(preds, stamps, s, t).value;
      forall k :: 0 <= k < |sts| ==> sts[k] == State(0.0, Ahead(steps, k + 1), 0.0)
  {
    var n := NumSteps(|preds|, s);
    var steps := StepsUpTo(preds, stamps, s, n).value;
    forall m | 0 <= m < |steps|
      ensures steps[m].dx == 0.0 && steps[m].dyaw == 0.0
    {
      StepsUpToOk(preds, stamps, s, n, m);
      StepAtValue(preds, stamps, s, m);
      FusedBetween(preds, s, m, Lateral, 0.0, 0.0);
      FusedBetween(preds, s, m, Yaw, 0.0, 0.0);
      MotionStraight(Fused(preds, s, m), stamps[m + s - 1] - stamps[m], stamps[m + 1] - stamps[m]);
    }
    forall k | 0 <= k < |steps|
      ensures Integrate(steps, t)[k] == State(0.0, Ahead(steps, k + 1), 0.0)
    {
      IntegrateStraight(steps, t, k);
    }
  }

  /** Turning in place at a constant rate: the position stays at the origin and after `k + 1`
      steps the yaw is `(k + 1) * dyaw` wrapped into [0, 2*pi). */
  lemma ConstantTurn(steps: seq<Step>, t: Trig, w: real, k: nat)
    requires forall m :: 0 <= m < |steps| ==> steps[m] == Step(0.0, 0.0, w)
    requires k < |steps|
    ensures Integrate(steps, t)[k] == State(0.0, 0.0, Wrap((k + 1) as real * w))
  {
    TurnAccumulates(steps, t, w, k);
    TurnAngle(w, k);
  }

  lemma TurnAngle(w: real, k: nat)
    ensures Turned(w, k + 1) == (k + 1) as real * w
  {
    TurnedProduct(w, k + 1);
  }

  /** `n` turns of `w`, added one at a time. */
  function Turned(w: real, n: nat): real {
    if n == 0 then 0.0 else Turned(w, n - 1) + w
  }

  lemma {:induction false} TurnedProduct(w: real, n: nat)
    ensures Turned(w, n) == n as real * w
  {
    if n > 0 {
      TurnedProduct(w, n - 1);
      assert (n - 1) as real * w + w == n as real * w;
    }
  }

  lemma {:induction false} TurnAccumulates(steps: seq<Step>, t: Trig, w: real, k: nat)
    requires forall m :: 0 <= m < |steps| ==> steps[m] == Step(0.0, 0.0, w)
    requires k < |steps|
    ensures Integrate(steps, t)[k] == State(0.0, 0.0, Wrap(Turned(w, k + 1)))
  {
    IntegrateStep(steps, t, k);
    var before := if k == 0 then Origin else Integrate(steps, t)[k - 1];
    if k > 0 {
      TurnAccumulates(steps, t, w, k - 1);
    } else {
      assert Wrap(0.0) == 0.0;
    }
    TurnStep(before, steps[k], t, w, Turned(w, k), Turned(w, k + 1));
  }

  lemma TurnStep(before: State, step: Step, t: Trig, w: real, a: real, a': real)
    requires before == State(0.0, 0.0, Wrap(a)) && step == Step(0.0, 0.0, w) && a' == a + w
    ensures Advance(before, step, t) == State(0.0, 0.0, Wrap(a'))
  {
    NoDisplacement(t, before.yaw, w);
    AdvanceSums(before, step, t, 0.0, 0.0, a);
  }

  lemma NoDisplacement(t: Trig, yaw: real, w: real)
    ensures Displacement(t, yaw, Step(0.0, 0.0, w)) == (0.0, 0.0)
  {
  }

  /** A worked run: five frames one second apart, hence four stack predictions, a window of two, and a constant forward
      prediction of one unit per frame give two poses, one and two units ahead. */
  const ExampleStamps: seq<real> := [0.0, 1.0, 2.0, 3.0, 4.0]
  const ExamplePreds: seq<Vec3> := [Vec3(1.0, 0.0, 0.0), Vec3(1.0, 0.0, 0.0), Vec3(1.0, 0.0, 0.0), Vec3(1.0, 0.0, 0.0)]

  lemma ExampleSteps()
    ensures StepsUpTo(ExamplePreds, ExampleStamps, 2, NumSteps(4, 2)) == Ok([Step(1.0, 0.0, 0.0), Step(1.0, 0.0, 0.0)])
  {
    var p := ExamplePreds;
    var ts := ExampleStamps;
    FusedConstant(p, 2, 0, Vec3(1.0, 0.0, 0.0));
    FusedConstant(p, 2, 1, Vec3(1.0, 0.0, 0.0));
    assert StepAt(p, ts, 2, 0) == Ok(Motion(Divide(Vec3(1.0, 0.0, 0.0), 1.0), 1.0));
    assert StepAt(p, ts, 2, 1) == Ok(Motion(Divide(Vec3(1.0, 0.0, 0.0), 1.0), 1.0));
    assert Motion(Divide(Vec3(1.0, 0.0, 0.0), 1.0), 1.0) == Step(1.0, 0.0, 0.0);
    assert |p| == 4 && NumSteps(4, 2) == 2;
    StepsUpToSnoc(p, ts, 2, 0, [], Step(1.0, 0.0, 0.0));
    assert [] + [Step(1.0, 0.0, 0.0)] == [Step(1.0, 0.0, 0.0)];
    StepsUpToSnoc(p, ts, 2, 1, [Step(1.0, 0.0, 0.0)], Step(1.0, 0.0, 0.0));
    assert [Step(1.0, 0.0, 0.0)] + [Step(1.0, 0.0, 0.0)] == [Step(1.0, 0.0, 0.0), Step(1.0, 0.0, 0.0)];
  }

  lemma ExampleRun(t: Trig)
    requires t.Anchored()
    ensures Trajectory(ExamplePreds, ExampleStamps, 2, t) == Ok([State(0.0, 1.0, 0.0), State(0.0, 2.0, 0.0)])
    ensures Poses(ExamplePreds, ExampleStamps, 2, t).Ok?
    ensures Poses(ExamplePreds, ExampleStamps, 2, t).value[1][2][3] == 2.0
  {
    ExampleSteps();
    var steps := [Step(1.0, 0.0, 0.0), Step(1.0, 0.0, 0.0)];
    IntegrateStraight(steps, t, 0);
    IntegrateStraight(steps, t, 1);
    assert Ahead(steps, 1) == 1.0;
    assert Ahead(steps, 2) == 2.0;
    var sts := Integrate(steps, t);
    assert sts == [State(0.0, 1.0, 0.0), State(0.0, 2.0, 0.0)];
  }
}
