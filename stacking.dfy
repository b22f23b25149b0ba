/**
 * The temporal stack builder of main.py (`stack_images`): overlapping windows of
 * `stackSize` consecutive frames, concatenated along the channel axis into a
 * zero-initialised four-dimensional array.  A frame's rows and columns are
 * flattened into one pixel axis, so the array here has three dimensions:
 * stack, pixel, channel.
 */
module Stacking {
  import opened Results

  /** An image as `channels` values per pixel. */
  datatype Image = Image(channels: nat, pixels: seq<seq<real>>) {
    predicate Rectangular() {
      forall p :: 0 <= p < |pixels| ==> |pixels[p]| == channels
    }
  }

  /** A loaded frame: like every numpy image, each pixel has the same number of channels. */
  type Frame = f: Image | f.Rectangular() witness Image(0, [])

  /** How `stack_images` fails: `image_data[0]` on an empty list, `np.zeros` with a negative
      dimension, or a frame that does not fit the slot shaped by the first frame. */
  datatype StackError = EmptySequence | NegativeDimension | ShapeMismatch

  predicate SameShape(f: Image, g: Image) {
    f.channels == g.channels && |f.pixels| == |g.pixels|
  }

  /** Frames `i .. i+n-1` exist and have the shape of the first frame. */
  predicate Fit(frames: seq<Frame>, i: nat, n: nat) {
    i + n <= |frames| && forall k :: i <= k < i + n ==> SameShape(frames[k], frames[0])
  }

  predicate Uniform(frames: seq<Frame>) {
    forall k :: 0 <= k < |frames| ==> SameShape(frames[k], frames[0])
  }

  /** Pixel `p` of the stack of frames `i .. i+n-1`: their channel vectors, earliest first. */
  function Window(frames: seq<Frame>, i: nat, n: nat, p: nat): (w: seq<real>)
    requires Fit(frames, i, n) && 0 < |frames| && p < |frames[0].pixels|
    ensures |w| == n * frames[0].channels
    decreases n
  {
    if n == 0 then [] else Window(frames, i, n - 1, p) + frames[i + n - 1].pixels[p]
  }

  /** Stack `i`: every pixel holds the window of `s` frames starting at frame `i`. */
  function StackOf(frames: seq<Frame>, i: nat, s: nat): Image
    requires 0 < |frames| && Fit(frames, i, s)
  {
    Image(frames[0].channels * s,
          seq(|frames[0].pixels|, p requires 0 <= p < |frames[0].pixels| => Window(frames, i, s, p)))
  }

  /** What `stack_images(frames, s)` returns, or the error it raises. */
  function Stacks(frames: seq<Frame>, s: nat): Result<seq<Image>, StackError> {
    if |frames| == 0 then Err(EmptySequence)
    else if s > |frames| + 1 then Err(NegativeDimension)
    else if 1 <= s <= |frames| && !Uniform(frames) then Err(ShapeMismatch)
    else
      assert forall i :: 0 <= i < |frames| - s + 1 ==> Fit(frames, i, s);
      Ok(seq(|frames| - s + 1, i requires 0 <= i < |frames| - s + 1 => StackOf(frames, i, s)))
  }

  lemma MulMono(a: nat, b: nat, c: nat)
    requires a <= b
    ensures a * c <= b * c
  {
  }

  /** Channel block `j` of a window is frame `i + j`. */
  lemma {:induction false} WindowBlock(frames: seq<Frame>, i: nat, n: nat, p: nat, j: nat, k: nat)
    requires Fit(frames, i, n) && 0 < |frames| && p < |frames[0].pixels|
    requires j < n && k < frames[0].channels
    ensures j * frames[0].channels + k < |Window(frames, i, n, p)|
    ensures Window(frames, i, n, p)[j * frames[0].channels + k] == frames[i + j].pixels[p][k]
    decreases n
  {
    var ch := frames[0].channels;
    MulMono(j + 1, n, ch);
    assert SameShape(frames[i + n - 1], frames[0]);
    if j < n - 1 {
      assert Fit(frames, i, n - 1);
      WindowBlock(frames, i, n - 1, p, j, k);
    } else {
      assert |Window(frames, i, n - 1, p)| == j * ch;
    }
  }

  /** Every channel of a window comes from a frame: channel `c` is channel `c % ch` of frame `i + c / ch`. */
  lemma WindowCell(frames: seq<Frame>, i: nat, n: nat, p: nat, c: nat)
    requires Fit(frames, i, n) && 0 < |frames| && p < |frames[0].pixels|
    requires c < n * frames[0].channels
    ensures frames[0].channels > 0 && i + c / frames[0].channels < |frames|
    ensures c < |Window(frames, i, n, p)|
    ensures Window(frames, i, n, p)[c]
         == frames[i + c / frames[0].channels].pixels[p][c % frames[0].channels]
  {
    var ch := frames[0].channels;
    var j, k := c / ch, c % ch;
    assert c == j * ch + k;
    if j >= n {
      MulMono(n, j, ch);
      assert false;
    }
    WindowBlock(frames, i, n, p, j, k);
  }

  /** `stack_images` returns `N - s + 1` stacks, each with the first frame's pixels and
      `channels * s` channels per pixel. */
  lemma StacksShape(frames: seq<Frame>, s: nat)
    requires Stacks(frames, s).Ok?
    ensures var st := Stacks(frames, s).value;
      && |st| == |frames| - s + 1
      && forall i :: 0 <= i < |st| ==>
           && st[i].channels == frames[0].channels * s
           && |st[i].pixels| == |frames[0].pixels|
           && st[i].Rectangular()
  {
  }

  /** In stack `i`, channel block `j` is frame `i + j`, so the earliest frame comes first. */
  lemma StackBlock(frames: seq<Frame>, s: nat, i: nat, j: nat, p: nat, k: nat)
    requires Stacks(frames, s).Ok?
    requires i < |Stacks(frames, s).value| && j < s
    requires p < |frames[0].pixels| && k < frames[0].channels
    ensures var px := Stacks(frames, s).value[i].pixels[p];
      j * frames[0].channels + k < |px| && px[j * frames[0].channels + k] == frames[i + j].pixels[p][k]
  {
    WindowBlock(frames, i, s, p, j, k);
  }

  /** The blocks tile the channel axis: every channel of every stack is a channel of some
      frame, so none of the array's initial zeros survives. */
  lemma StackTiles(frames: seq<Frame>, s: nat, i: nat, p: nat, c: nat)
    requires Stacks(frames, s).Ok?
    requires i < |Stacks(frames, s).value| && p < |frames[0].pixels|
    requires c < frames[0].channels * s
    ensures var ch := frames[0].channels;
      && ch > 0 && i + c / ch < |frames|
      && Stacks(frames, s).value[i].pixels[p][c] == frames[i + c / ch].pixels[p][c % ch]
  {
    WindowCell(frames, i, s, p, c);
  }

  /** `a[i, :, offset:offset+channels] = f`: one numpy slice assignment. */
  method CopyBlock(a: array3<real>, i: nat, offset: nat, f: Frame)
    requires i < a.Length0 && |f.pixels| == a.Length1 && offset + f.channels <= a.Length2
    modifies a
    ensures forall i', q, c :: 0 <= i' < a.Length0 && 0 <= q < a.Length1 && 0 <= c < a.Length2 ==>
      a[i', q, c] == (if i' == i && offset <= c < offset + f.channels then f.pixels[q][c - offset]
                      else old(a[i', q, c]))
  {
    var p := 0;
    while p < a.Length1
      invariant 0 <= p <= a.Length1
      invariant forall i', q, c :: 0 <= i' < a.Length0 && 0 <= q < a.Length1 && 0 <= c < a.Length2 ==>
        a[i', q, c] == (if i' == i && q < p && offset <= c < offset + f.channels then f.pixels[q][c - offset]
                        else old(a[i', q, c]))
    {
      var k := 0;
      while k < f.channels
        invariant 0 <= k <= f.channels
        invariant forall i', q, c :: 0 <= i' < a.Length0 && 0 <= q < a.Length1 && 0 <= c < a.Length2 ==>
          a[i', q, c] == (if i' == i && (q < p || (q == p && c < offset + k)) && offset <= c < offset + f.channels
                          then f.pixels[q][c - offset] else old(a[i', q, c]))
      {
        a[i, p, offset + k] := f.pixels[p][k];
        k := k + 1;
      }
      p := p + 1;
    }
  }

  /** The array holds the stacks cell by cell. */
  ghost predicate Holds(a: array3<real>, stacks: seq<Image>)
    reads a
  {
    && a.Length0 == |stacks|
    && forall i, p, c :: 0 <= i < a.Length0 && 0 <= p < a.Length1 && 0 <= c < a.Length2 ==>
         p < |stacks[i].pixels| && c < |stacks[i].pixels[p]| && a[i, p, c] == stacks[i].pixels[p][c]
  }

  /** Stacks `0 .. rows-1` of the array hold their windows. */
  ghost predicate RowsFilled(a: array3<real>, frames: seq<Frame>, s: nat, rows: nat)
    reads a
  {
    0 < |frames| && rows <= a.Length0 &&
    forall i, p, c :: 0 <= i < rows && 0 <= p < a.Length1 && 0 <= c < a.Length2 ==>
      Fit(frames, i, s) && p < |frames[0].pixels| && c < s * frames[0].channels
      && a[i, p, c] == Window(frames, i, s, p)[c]
  }

  /** Channel blocks `0 .. j-1` of stack `i` hold frames `i .. i+j-1`. */
  ghost predicate BlocksFilled(a: array3<real>, frames: seq<Frame>, i: nat, j: nat)
    requires 0 < |frames| && Fit(frames, i, j)
    reads a
  {
    i < a.Length0 && a.Length1 == |frames[0].pixels| &&
    forall p, c :: 0 <= p < a.Length1 && 0 <= c < j * frames[0].channels ==>
      c < a.Length2 && a[i, p, c] == Window(frames, i, j, p)[c]
  }

  /** One pass of the inner loop: frame `i + j` goes into channel block `j` of stack `i`. */
  method PlaceFrame(a: array3<real>, frames: seq<Frame>, i: nat, j: nat, s: nat)
    requires 0 < |frames| && Fit(frames, i, j + 1) && j < s
    requires i < a.Length0 && a.Length1 == |frames[0].pixels| && a.Length2 == frames[0].channels * s
    requires BlocksFilled(a, frames, i, j)
    modifies a
    ensures BlocksFilled(a, frames, i, j + 1)
    ensures forall p, c :: 0 <= p < a.Length1 && (j + 1) * frames[0].channels <= c < a.Length2 ==>
      a[i, p, c] == old(a[i, p, c])
    ensures forall i', p, c :: 0 <= i' < a.Length0 && i' != i && 0 <= p < a.Length1 && 0 <= c < a.Length2 ==>
      a[i', p, c] == old(a[i', p, c])
  {
    var ch := frames[0].channels;
    MulMono(j + 1, s, ch);
    assert SameShape(frames[i + j], frames[0]);
    CopyBlock(a, i, j * ch, frames[i + j]);
    forall p, c | 0 <= p < a.Length1 && 0 <= c < (j + 1) * ch
      ensures c < a.Length2 && a[i, p, c] == Window(frames, i, j + 1, p)[c]
    {
      assert Window(frames, i, j + 1, p) == Window(frames, i, j, p) + frames[i + j].pixels[p];
    }
  }

  /** The inner loop of `stack_images` for stack `i`: block `j` receives frame `i + j`,
      until a frame does not fit the slot. */
  method FillStack(a: array3<real>, frames: seq<Frame>, i: nat, s: nat) returns (ok: bool)
    requires 0 < |frames| && i + s <= |frames|
    requires i < a.Length0 && a.Length1 == |frames[0].pixels| && a.Length2 == frames[0].channels * s
    modifies a
    ensures ok <==> Fit(frames, i, s)
    ensures ok ==> forall p, c :: 0 <= p < a.Length1 && 0 <= c < a.Length2 ==>
      a[i, p, c] == Window(frames, i, s, p)[c]
    ensures forall i', p, c :: 0 <= i' < a.Length0 && i' != i && 0 <= p < a.Length1 && 0 <= c < a.Length2 ==>
      a[i', p, c] == old(a[i', p, c])
  {
    var j := 0;
    while j < s
      invariant 0 <= j <= s
      invariant Fit(frames, i, j)
      invariant BlocksFilled(a, frames, i, j)
      invariant forall i', p, c :: 0 <= i' < a.Length0 && i' != i && 0 <= p < a.Length1 && 0 <= c < a.Length2 ==>
        a[i', p, c] == old(a[i', p, c])
    {
      if !SameShape(frames[i + j], frames[0]) {
        return false;
      }
      assert Fit(frames, i, j + 1);
      PlaceFrame(a, frames, i, j, s);
      j := j + 1;
    }
    assert s * frames[0].channels == a.Length2;
    return true;
  }

  /** `stack_images`: allocates the zero array and fills block `j` of stack `i` with frame `i + j`. */
  method StackImages(frames: seq<Frame>, s: nat) returns (r: Result<array3<real>, StackError>)
    ensures r.Err? <==> Stacks(frames, s).Err?
    ensures r.Err? ==> r.error == Stacks(frames, s).error
    ensures r.Ok? ==> && fresh(r.value)
                      && r.value.Length1 == |frames[0].pixels|
                      && r.value.Length2 == frames[0].channels * s
                      && Holds(r.value, Stacks(frames, s).value)
  {
    if |frames| == 0 {
      return Err(EmptySequence);
    }
    var ch, pixels := frames[0].channels, |frames[0].pixels|;
    if s > |frames| + 1 {
      return Err(NegativeDimension);
    }
    var count := |frames| - s + 1;
    var a := new real[count, pixels, ch * s]((_, _, _) => 0.0);
    var i := 0;
    while i < count
      invariant 0 <= i <= count
      invariant forall i' :: 0 <= i' < i ==> Fit(frames, i', s)
      invariant RowsFilled(a, frames, s, i)
    {
      var ok := FillStack(a, frames, i, s);
      if !ok {
        assert !Uniform(frames);
        return Err(ShapeMismatch);
      }
      i := i + 1;
    }
    if 1 <= s <= |frames| {
      forall k | 0 <= k < |frames| ensures SameShape(frames[k], frames[0]) {
        var i' := if k < count then k else count - 1;
        assert Fit(frames, i', s);
      }
    }
    return Ok(a);
  }
}
