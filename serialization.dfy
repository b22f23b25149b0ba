/**
 * `write_poses` of scripts/create_results_file.py: each pose becomes one line
 * of the results file, its twelve entries in row-major order, shown with `str`
 * and separated by single spaces.  `str` and `float` are parameters: `show`
 * renders a number and `parse` reads one back.  The reader below is the
 * inverse the format is designed for.
 */
module Serialization {
  import opened Results
  import opened Text
  import opened Smoothing
  import opened Integration

  /** `pose.flatten()`: the rows of the matrix one after another. */
  function Flatten(m: seq<seq<real>>): seq<real> {
    if m == [] then [] else m[0] + Flatten(m[1..])
  }

  /** A 3x4 matrix, the shape `calc_poses` builds. */
  predicate Shaped(m: Pose) {
    |m| == 3 && forall r :: 0 <= r < 3 ==> |m[r]| == 4
  }

  /** Entry `(r, c)` of a 3x4 matrix sits at position `4 * r + c` of its flattening. */
  lemma FlattenShaped(m: Pose)
    requires Shaped(m)
    ensures |Flatten(m)| == 12
    ensures forall r, c :: 0 <= r < 3 && 0 <= c < 4 ==> Flatten(m)[4 * r + c] == m[r][c]
  {
    var a := m[1..];
    var b := a[1..];
    assert Flatten(b[1..]) == [];
    assert Flatten(b) == m[2] + [];
    assert Flatten(a) == m[1] + m[2] + [];
    assert Flatten(m) == m[0] + m[1] + m[2] + [];
  }

  /** Reshape twelve numbers into the three rows of a pose. */
  function Rows(flat: seq<real>): (m: Pose)
    requires |flat| == 12
    ensures Shaped(m)
  {
    [flat[0..4], flat[4..8], flat[8..12]]
  }

  lemma RowsFlatten(m: Pose)
    requires Shaped(m)
    ensures |Flatten(m)| == 12 && Rows(Flatten(m)) == m
  {
    FlattenShaped(m);
    var r := Rows(Flatten(m));
    forall i | 0 <= i < 3
      ensures r[i] == m[i]
    {
      assert |r[i]| == 4;
      forall c | 0 <= c < 4 ensures r[i][c] == m[i][c] {
        assert r[i][c] == Flatten(m)[4 * i + c];
      }
    }
  }

  /** `map(str, xs)`. */
  function Shown(xs: seq<real>, show: real -> string): (ts: seq<string>)
    ensures |ts| == |xs|
    ensures forall i :: 0 <= i < |xs| ==> ts[i] == show(xs[i])
  {
    seq(|xs|, i requires 0 <= i < |xs| => show(xs[i]))
  }

  /** `' '.join(map(str, pose.flatten()))`. */
  function Entries(m: Pose, show: real -> string): string {
    Join(Shown(Flatten(m), show))
  }

  /** The line of one pose, with its line break. */
  function PoseLine(m: Pose, show: real -> string): string {
    Entries(m, show) + "\n"
  }

  /** The file `write_poses` leaves behind: the lines of the poses, in order. */
  function Document(poses: seq<Pose>, show: real -> string): string {
    if poses == [] then [] else Document(poses[..|poses| - 1], show) + PoseLine(poses[|poses| - 1], show)
  }

  /** `write_poses`: the loop writes one line per pose to the output, which it builds up in order. */
  method WritePoses(poses: seq<Pose>, show: real -> string) returns (text: string)
    ensures text == Document(poses, show)
  {
    text := "";
    for i := 0 to |poses|
      invariant text == Document(poses[..i], show)
    {
      assert poses[..i + 1][..i] == poses[..i];
      text := text + PoseLine(poses[i], show);
    }
    assert poses[..|poses|] == poses;
  }

  /** `float(t)` for every token, or nothing when one of them is not a number. */
  function ParseAll(ts: seq<string>, parse: string -> Option<real>): (r: Option<seq<real>>)
    ensures r.Some? <==> forall i :: 0 <= i < |ts| ==> parse(ts[i]).Some?
    ensures r.Some? ==> |r.value| == |ts| && forall i :: 0 <= i < |ts| ==> Some(r.value[i]) == parse(ts[i])
  {
    if ts == [] then Some([])
    else
      var head := parse(ts[0]);
      var tail := ParseAll(ts[1..], parse);
      assert forall i :: 1 <= i < |ts| ==> ts[i] == ts[1..][i - 1];
      if head.Some? && tail.Some? then Some([head.value] + tail.value) else None
  }

  /** Reads one line of the results file back into a pose. */
  function ReadPose(line: string, parse: string -> Option<real>): Option<Pose> {
    var ts := Split(line);
    if |ts| != 12 then None
    else match ParseAll(ts, parse)
      case None => None
      case Some(xs) => Some(Rows(xs))
  }

  /** Reads a whole results file, one pose per line. */
  function ReadPoses(text: string, parse: string -> Option<real>): Option<seq<Pose>> {
    ReadLines(Lines(text), parse)
  }

  function ReadLines(lines: seq<string>, parse: string -> Option<real>): Option<seq<Pose>> {
    if lines == [] then Some([])
    else match (ReadPose(lines[0], parse), ReadLines(lines[1..], parse))
      case (Some(m), Some(ms)) => Some([m] + ms)
      case _ => None
  }

  /** `str` renders each entry of the poses as one token, and `float` reads that token back
      as the same number. */
  predicate Faithful(poses: seq<Pose>, show: real -> string, parse: string -> Option<real>) {
    forall i, r, c :: 0 <= i < |poses| && 0 <= r < |poses[i]| && 0 <= c < |poses[i][r]| ==>
      IsToken(show(poses[i][r][c])) && parse(show(poses[i][r][c])) == Some(poses[i][r][c])
  }

  /** One line splits into the twelve rendered entries of its pose, in row-major order,
      and reads back as that pose. */
  lemma ReadPoseLine(m: Pose, show: real -> string, parse: string -> Option<real>)
    requires Shaped(m) && Faithful([m], show, parse)
    ensures Split(PoseLine(m, show)) == Shown(Flatten(m), show)
    ensures ReadPose(Entries(m, show), parse) == Some(m)
  {
    FlattenShaped(m);
    var flat := Flatten(m);
    var ts := Shown(flat, show);
    forall k | 0 <= k < 12
      ensures IsToken(ts[k]) && parse(ts[k]) == Some(flat[k])
    {
      var r, c := k / 4, k % 4;
      assert k == 4 * r + c;
      assert [m][0][r][c] == m[r][c];
    }
    SplitJoinSuffix(ts, "\n");
    SplitJoinSuffix(ts, []);
    assert Join(ts) + [] == Join(ts);
    var xs := ParseAll(ts, parse).value;
    assert xs == flat;
    RowsFlatten(m);
  }

  /** The joined entries of each pose: the lines `write_poses` writes, without their breaks. */
  function PoseLines(poses: seq<Pose>, show: real -> string): (ls: seq<string>)
    ensures |ls| == |poses|
    ensures forall i :: 0 <= i < |poses| ==> ls[i] == Entries(poses[i], show)
  {
    if poses == [] then []
    else
      var n := |poses| - 1;
      assert forall i :: 0 <= i < n ==> poses[..n][i] == poses[i];
      PoseLines(poses[..n], show) + [Entries(poses[n], show)]
  }

  /** The file is its lines, each followed by a line break. */
  lemma {:induction false} DocumentUnlines(poses: seq<Pose>, show: real -> string)
    ensures Document(poses, show) == Unlines(PoseLines(poses, show))
    decreases |poses|
  {
    if poses != [] {
      var n := |poses| - 1;
      DocumentUnlines(poses[..n], show);
      UnlinesSnoc(PoseLines(poses[..n], show), Entries(poses[n], show));
    }
  }

  /** The lines of the file are the joined entries of the poses, one line per pose. */
  lemma DocumentLines(poses: seq<Pose>, show: real -> string)
    requires forall i :: 0 <= i < |poses| ==> NoBreak(Entries(poses[i], show))
    ensures |Lines(Document(poses, show))| == |poses|
    ensures forall i :: 0 <= i < |poses| ==> Lines(Document(poses, show))[i] == Entries(poses[i], show)
  {
    DocumentUnlines(poses, show);
    LinesUnlines(PoseLines(poses, show));
  }

  /** A pose whose entries all render as tokens renders as a line without a break. */
  lemma EntriesNoBreak(m: Pose, show: real -> string)
    requires Shaped(m)
    requires forall r, c :: 0 <= r < 3 && 0 <= c < 4 ==> IsToken(show(m[r][c]))
    ensures NoBreak(Entries(m, show))
  {
    FlattenShaped(m);
    var ts := Shown(Flatten(m), show);
    forall k | 0 <= k < 12
      ensures IsToken(ts[k])
    {
      var r, c := k / 4, k % 4;
      assert k == 4 * r + c;
      assert Flatten(m)[k] == m[r][c];
    }
    JoinNoBreak(ts);
  }

  /** Reading the results file back gives the poses that were written. */
  lemma ReadWritten(poses: seq<Pose>, show: real -> string, parse: string -> Option<real>)
    requires forall i :: 0 <= i < |poses| ==> Shaped(poses[i])
    requires Faithful(poses, show, parse)
    ensures ReadPoses(Document(poses, show), parse) == Some(poses)
  {
    forall i | 0 <= i < |poses|
      ensures NoBreak(Entries(poses[i], show))
    {
      forall r, c | 0 <= r < 3 && 0 <= c < 4
        ensures IsToken(show(poses[i][r][c]))
      {
      }
      EntriesNoBreak(poses[i], show);
    }
    DocumentLines(poses, show);
    var lines := Lines(Document(poses, show));
    ReadLinesBack(poses, lines, show, parse);
  }

  lemma {:induction false} ReadLinesBack(poses: seq<Pose>, lines: seq<string>, show: real -> string, parse: string -> Option<real>)
    requires forall i :: 0 <= i < |poses| ==> Shaped(poses[i])
    requires Faithful(poses, show, parse)
    requires |lines| == |poses|
    requires forall i :: 0 <= i < |poses| ==> lines[i] == Entries(poses[i], show)
    ensures ReadLines(lines, parse) == Some(poses)
    decreases |poses|
  {
    if poses != [] {
      assert Faithful([poses[0]], show, parse) by {
        forall i, r, c | 0 <= i < 1 && 0 <= r < |[poses[0]][i]| && 0 <= c < |[poses[0]][i][r]|
          ensures IsToken(show([poses[0]][i][r][c]))
        {
          assert [poses[0]][i] == poses[0];
        }
      }
      ReadPoseLine(poses[0], show, parse);
      var tail := poses[1..];
      assert Faithful(tail, show, parse) by {
        forall i, r, c | 0 <= i < |tail| && 0 <= r < |tail[i]| && 0 <= c < |tail[i][r]|
          ensures IsToken(show(tail[i][r][c]))
        {
          assert tail[i] == poses[i + 1];
        }
      }
      ReadLinesBack(tail, lines[1..], show, parse);
      assert [poses[0]] + tail == poses;
    }
  }

  lemma PoseShaped(st: State, t: Trig)
    ensures Shaped(PoseOf(st, t))
  {
  }

  /** The line of a pose holds, in order: cos, 0, sin, x; four zeros; -sin, 0, cos, y. */
  lemma PoseLineLayout(st: State, t: Trig, show: real -> string)
    requires forall r, c :: 0 <= r < 3 && 0 <= c < 4 ==> IsToken(show(PoseOf(st, t)[r][c]))
    ensures var cs, sn := show(t.cos(st.yaw)), show(t.sin(st.yaw));
      var z := show(0.0);
      Split(PoseLine(PoseOf(st, t), show)) == [cs, z, sn, show(st.x), z, z, z, z, show(-t.sin(st.yaw)), z, cs, show(st.y)]
  {
    var m := PoseOf(st, t);
    FlattenShaped(m);
    var ts := Shown(Flatten(m), show);
    forall k | 0 <= k < 12
      ensures IsToken(ts[k])
    {
      var r, c := k / 4, k % 4;
      assert k == 4 * r + c;
      assert Flatten(m)[k] == m[r][c];
    }
    SplitJoinSuffix(ts, "\n");
    var cs, sn := show(t.cos(st.yaw)), show(t.sin(st.yaw));
    var z := show(0.0);
    var want := [cs, z, sn, show(st.x), z, z, z, z, show(-t.sin(st.yaw)), z, cs, show(st.y)];
    forall k | 0 <= k < 12
      ensures ts[k] == want[k]
    {
      var r, c := k / 4, k % 4;
      assert k == 4 * r + c;
      assert Flatten(m)[k] == m[r][c];
    }
    assert ts == want;
  }

  /** The results file `write_poses` makes from the output of `calc_poses` has one line per
      step, and reading it back gives each step's position in entries (0,3) and (2,3) and
      its heading in the rotation entries. */
  lemma WrittenTrajectory(preds: seq<Vec3>, stamps: seq<real>, s: nat, t: Trig,
                          show: real -> string, parse: string -> Option<real>)
    requires Poses(preds, stamps, s, t).Ok?
    requires Faithful(Poses(preds, stamps, s, t).value, show, parse)
    ensures var poses := Poses(preds, stamps, s, t).value;
      |Lines(Document(poses, show))| == NumSteps(|preds|, s)
    ensures var poses := Poses(preds, stamps, s, t).value;
      var sts := Trajectory(preds, stamps, s, t).value;
      var back := ReadPoses(Document(poses, show), parse);
      && back == Some(poses) && |poses| == |sts|
      && forall k :: 0 <= k < |sts| ==>
        && back.value[k][0][3] == sts[k].x && back.value[k][2][3] == sts[k].y
        && back.value[k][0][0] == back.value[k][2][2] == t.cos(sts[k].yaw)
        && back.value[k][0][2] == t.sin(sts[k].yaw) && back.value[k][2][0] == -t.sin(sts[k].yaw)
  {
    var poses := Poses(preds, stamps, s, t).value;
    forall i | 0 <= i < |poses|
      ensures Shaped(poses[i]) && NoBreak(Entries(poses[i], show))
    {
      forall r, c | 0 <= r < 3 && 0 <= c < 4
        ensures IsToken(show(poses[i][r][c]))
      {
      }
      EntriesNoBreak(poses[i], show);
    }
    DocumentLines(poses, show);
    ReadWritten(poses, show, parse);
  }
}
