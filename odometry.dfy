/**
 * Ground-truth targets of main.py: `load_odometry` picks nine fixed fields of a
 * whitespace-separated record, and `load_data` pairs the frame stacks with the
 * records, trimming the records so that stack `i` meets record `i`.
 */
module Odometry {
  import opened Results
  import opened Text
  import opened Slices
  import opened Stacking

  /** Forward, leftward and upward velocity, acceleration and angular rate. */
  const FieldIndices: seq<nat> := [8, 9, 10, 14, 15, 16, 20, 21, 22]

  /** `data[idx]` out of range (IndexError) or `float(data[idx])` refused (ValueError). */
  datatype RecordError = MissingField(index: nat) | NotNumeric(index: nat)

  /** `[float(tokens[idx]) for idx in idxs]`, failing at the first index that fails. */
  function PickFields(tokens: seq<string>, idxs: seq<nat>, parse: string -> Option<real>)
    : Result<seq<real>, RecordError>
  {
    if idxs == [] then Ok([])
    else if idxs[0] >= |tokens| then Err(MissingField(idxs[0]))
    else match parse(tokens[idxs[0]])
      case None => Err(NotNumeric(idxs[0]))
      case Some(v) =>
        match PickFields(tokens, idxs[1..], parse)
        case Err(e) => Err(e)
        case Ok(vs) => Ok([v] + vs)
  }

  /** `load_odometry` on the text of one record file; `parse` stands for Python's `float`. */
  function LoadOdometry(record: string, parse: string -> Option<real>): Result<seq<real>, RecordError> {
    PickFields(Split(record), FieldIndices, parse)
  }

  /** Picking succeeds exactly when every index is present and parses, and then yields
      the parsed tokens in the order of the indices. */
  lemma {:induction false} PickFieldsOk(tokens: seq<string>, idxs: seq<nat>, parse: string -> Option<real>)
    ensures PickFields(tokens, idxs, parse).Ok? <==>
      forall k :: 0 <= k < |idxs| ==> idxs[k] < |tokens| && parse(tokens[idxs[k]]).Some?
    ensures PickFields(tokens, idxs, parse).Ok? ==>
      var vs := PickFields(tokens, idxs, parse).value;
      |vs| == |idxs| && forall k :: 0 <= k < |idxs| ==> vs[k] == parse(tokens[idxs[k]]).value
    decreases |idxs|
  {
    if idxs != [] {
      PickFieldsOk(tokens, idxs[1..], parse);
      assert forall k :: 1 <= k < |idxs| ==> idxs[k] == idxs[1..][k - 1];
    }
  }

  /** A record with fewer tokens than an index fails no later than that index: the
      result is an error whenever some picked index is missing. */
  lemma {:induction false} PickFieldsMissing(tokens: seq<string>, idxs: seq<nat>, parse: string -> Option<real>, k: nat)
    requires k < |idxs| && idxs[k] >= |tokens|
    ensures PickFields(tokens, idxs, parse).Err?
  {
    PickFieldsOk(tokens, idxs, parse);
  }

  /** `load_odometry` returns exactly nine values, the tokens at 8, 9, 10, 14, 15, 16, 20,
      21 and 22 in that order, and succeeds exactly when those nine tokens exist and parse. */
  lemma LoadOdometryFields(record: string, parse: string -> Option<real>)
    ensures var tokens := Split(record);
      LoadOdometry(record, parse).Ok? <==>
        |tokens| >= 23 && forall k :: 0 <= k < 9 ==> parse(tokens[FieldIndices[k]]).Some?
    ensures var tokens := Split(record);
      LoadOdometry(record, parse).Ok? ==>
        var vs := LoadOdometry(record, parse).value;
        |vs| == 9 && forall k :: 0 <= k < 9 ==> vs[k] == parse(tokens[FieldIndices[k]]).value
  {
    var tokens := Split(record);
    PickFieldsOk(tokens, FieldIndices, parse);
    if |tokens| < 23 {
      PickFieldsMissing(tokens, FieldIndices, parse, 8);
    }
  }

  /** A record of fewer than 23 tokens is refused, never silently truncated; with fewer
      than 9 tokens the very first field is the one reported missing. */
  lemma ShortRecordFails(record: string, parse: string -> Option<real>)
    requires |Split(record)| < 23
    ensures LoadOdometry(record, parse).Err?
    ensures |Split(record)| <= 8 ==> LoadOdometry(record, parse) == Err(MissingField(8))
  {
    PickFieldsMissing(Split(record), FieldIndices, parse, 8);
  }

  /** `odom_data[:-stack_size+1]` as written in `load_data`. */
  function TrimAsWritten<T>(targets: seq<T>, s: nat): seq<T> {
    Prefix(targets, 1 - s)
  }

  /** The trim the comment "trim last few odometries" intends: `odom_data[:len(odom_data)-stack_size+1]`. */
  function TrimTargets<T>(targets: seq<T>, s: nat): (r: seq<T>)
    requires 1 <= s <= |targets| + 1
    ensures |r| == |targets| - s + 1
    ensures forall i :: 0 <= i < |r| ==> r[i] == targets[i]
  {
    Prefix(targets, |targets| - s + 1)
  }

  /** For a stack size of two or more the written slice is the intended one. */
  lemma TrimAgrees<T>(targets: seq<T>, s: nat)
    requires 2 <= s <= |targets| + 1
    ensures TrimAsWritten(targets, s) == TrimTargets(targets, s)
  {
  }

  /** For a stack size of one the written slice is `[:-0]`, which keeps nothing, while
      there is one stack per frame. */
  lemma TrimAsWrittenDropsAll<T>(targets: seq<T>)
    ensures TrimAsWritten(targets, 1) == []
    ensures |TrimTargets(targets, 1)| == |targets|
  {
  }

  /** One image name: its loaded frame and the text of its odometry file. */
  datatype Sample = Sample(frame: Frame, record: string)

  datatype LoadError = RecordFailed(name: nat, cause: RecordError) | StackFailed(reason: StackError)

  datatype Dataset = Dataset(stacks: seq<Image>, targets: seq<seq<real>>)

  /** The odometry list of `load_data` (line 67): fails at the first record that fails. */
  function LoadTargets(samples: seq<Sample>, parse: string -> Option<real>): (r: Result<seq<seq<real>>, LoadError>)
    ensures r.Ok? ==> (|r.value| == |samples| &&
      forall i :: 0 <= i < |samples| ==> LoadOdometry(samples[i].record, parse) == Ok(r.value[i]))
    ensures r.Err? ==> (r.error.RecordFailed? && r.error.name < |samples|
      && LoadOdometry(samples[r.error.name].record, parse) == Err(r.error.cause)
      && forall i :: 0 <= i < r.error.name ==> LoadOdometry(samples[i].record, parse).Ok?)
    decreases |samples|
  {
    if samples == [] then Ok([])
    else
      var n := |samples| - 1;
      assert forall i :: 0 <= i < n ==> samples[..n][i] == samples[i];
      match LoadTargets(samples[..n], parse)
      case Err(e) => Err(e)
      case Ok(ts) =>
        match LoadOdometry(samples[n].record, parse)
        case Err(e) => Err(RecordFailed(n, e))
        case Ok(t) => Ok(ts + [t])
  }

  function Frames(samples: seq<Sample>): (fs: seq<Frame>)
    ensures |fs| == |samples| && forall i :: 0 <= i < |samples| ==> fs[i] == samples[i].frame
  {
    seq(|samples|, i requires 0 <= i < |samples| => samples[i].frame)
  }

  /** `load_data` after the directory listing: parse every record, stack the frames, trim
      the targets. */
  function LoadData(samples: seq<Sample>, s: nat, parse: string -> Option<real>): Result<Dataset, LoadError> {
    match LoadTargets(samples, parse)
    case Err(e) => Err(e)
    case Ok(targets) =>
      match Stacks(Frames(samples), s)
      case Err(e) => Err(StackFailed(e))
      case Ok(stacks) =>
        assert 1 <= s ==> s <= |targets| + 1;
        Ok(Dataset(stacks, if 1 <= s then TrimTargets(targets, s) else TrimAsWritten(targets, s)))
  }

  /** After trimming, stack `i` is paired with the record of image `i`, its first frame. */
  lemma LoadDataAligned(samples: seq<Sample>, s: nat, parse: string -> Option<real>)
    requires 1 <= s
    requires LoadData(samples, s, parse).Ok?
    ensures var d := LoadData(samples, s, parse).value;
      && |d.targets| == |d.stacks| == |samples| - s + 1
      && forall i :: 0 <= i < |d.targets| ==>
           LoadOdometry(samples[i].record, parse) == Ok(d.targets[i])
           && d.stacks[i] == Stacks(Frames(samples), s).value[i]
  {
  }
}
