/**
 * The two string operations the pipeline relies on: Python's argument-less
 * `str.split()`, which cuts a text at runs of whitespace and drops empty
 * pieces, and `' '.join(...)`, which glues tokens with single spaces.
 */
module Text {

  /** Whitespace as Python's `str.split()` sees it (the ASCII part). */
  predicate IsSpace(c: char) {
    c == ' ' || c == '\t' || c == '\n' || c == '\r' || c == '\U{B}' || c == '\U{C}'
    || ('\U{1C}' <= c <= '\U{1F}')
  }

  predicate NoSpace(t: string) {
    forall i :: 0 <= i < |t| ==> !IsSpace(t[i])
  }

  /** A token: what `split()` can return, and what `join` can take back apart. */
  predicate IsToken(t: string) {
    |t| > 0 && NoSpace(t)
  }

  /** Splits `s`, with `pending` the non-space characters already read of the current token. */
  function SplitFrom(s: string, pending: string): seq<string>
    requires NoSpace(pending)
    decreases |s|
  {
    if s == [] then
      (if pending == [] then [] else [pending])
    else if IsSpace(s[0]) then
      (if pending == [] then SplitFrom(s[1..], []) else [pending] + SplitFrom(s[1..], []))
    else
      SplitFrom(s[1..], pending + [s[0]])
  }

  /** Python's `s.split()`: the maximal runs of non-space characters, in order. */
  function Split(s: string): seq<string> {
    SplitFrom(s, [])
  }

  /** Every piece of a split is a token: non-empty and free of whitespace. */
  lemma {:induction false} SplitFromTokens(s: string, pending: string)
    requires NoSpace(pending)
    ensures forall k :: 0 <= k < |SplitFrom(s, pending)| ==> IsToken(SplitFrom(s, pending)[k])
    decreases |s|
  {
    if s != [] {
      if IsSpace(s[0]) {
        SplitFromTokens(s[1..], []);
      } else {
        assert NoSpace(pending + [s[0]]) by {
          forall i | 0 <= i < |pending + [s[0]]| ensures !IsSpace((pending + [s[0]])[i]) {
            if i < |pending| { assert (pending + [s[0]])[i] == pending[i]; }
          }
        }
        SplitFromTokens(s[1..], pending + [s[0]]);
      }
    }
  }

  lemma SplitTokens(s: string)
    ensures forall k :: 0 <= k < |Split(s)| ==> IsToken(Split(s)[k])
  {
    SplitFromTokens(s, []);
  }

  /** Python's `' '.join(ts)`. */
  function Join(ts: seq<string>): string {
    if ts == [] then [] else if |ts| == 1 then ts[0] else ts[0] + " " + Join(ts[1..])
  }

  /** Reading the characters of a space-free word only extends the pending token. */
  lemma {:induction false} SplitWord(w: string, rest: string, pending: string)
    requires NoSpace(pending) && NoSpace(w)
    ensures NoSpace(pending + w)
    ensures SplitFrom(w + rest, pending) == SplitFrom(rest, pending + w)
    decreases |w|
  {
    if w == [] {
      assert w + rest == rest;
      assert pending + w == pending;
    } else {
      assert (w + rest)[0] == w[0];
      assert (w + rest)[1..] == w[1..] + rest;
      assert NoSpace(pending + [w[0]]) by {
        forall i | 0 <= i < |pending + [w[0]]| ensures !IsSpace((pending + [w[0]])[i]) {
          if i < |pending| { assert (pending + [w[0]])[i] == pending[i]; }
        }
      }
      assert NoSpace(w[1..]) by {
        forall i | 0 <= i < |w[1..]| ensures !IsSpace(w[1..][i]) { assert w[1..][i] == w[i + 1]; }
      }
      SplitWord(w[1..], rest, pending + [w[0]]);
      assert pending + [w[0]] + w[1..] == pending + w;
    }
  }

  /** A text that is at most a line break splits into nothing. */
  lemma SplitTail(tail: string)
    requires tail == [] || tail == "\n"
    ensures Split(tail) == []
  {
    if tail == "\n" {
      assert IsSpace(tail[0]) && tail[1..] == [];
      assert SplitFrom(tail, []) == SplitFrom([], []);
    }
  }

  /** One token, with or without a trailing newline, splits into itself. */
  lemma SplitToken(w: string, tail: string)
    requires IsToken(w)
    requires tail == [] || tail == "\n"
    ensures Split(w + tail) == [w]
  {
    SplitWord(w, tail, []);
    assert [] + w == w;
    if tail == "\n" {
      assert tail[1..] == [];
      assert SplitFrom(tail, w) == [w] + SplitFrom([], []);
    }
  }

  /** A token then a space: the token is cut off, and splitting goes on after the space. */
  lemma SplitSpace(w: string, rest: string)
    requires IsToken(w)
    ensures Split(w + " " + rest) == [w] + Split(rest)
  {
    assert w + " " + rest == w + (" " + rest);
    SplitWord(w, " " + rest, []);
    assert [] + w == w;
    assert (" " + rest)[1..] == rest;
  }

  /** Splitting what `join` produced gives back the tokens, with or without a trailing newline. */
  lemma {:induction false} SplitJoinSuffix(ts: seq<string>, tail: string)
    requires forall k :: 0 <= k < |ts| ==> IsToken(ts[k])
    requires tail == [] || tail == "\n"
    ensures Split(Join(ts) + tail) == ts
    decreases |ts|
  {
    if ts == [] {
      assert Split(Join(ts) + tail) == ts by {
        assert Join(ts) + tail == tail;
        SplitTail(tail);
      }
    } else if |ts| == 1 {
      assert Split(Join(ts) + tail) == ts by {
        assert Join(ts) + tail == ts[0] + tail;
        SplitToken(ts[0], tail);
        assert ts == [ts[0]];
      }
    } else {
      var rest := Join(ts[1..]) + tail;
      assert Split(Join(ts) + tail) == [ts[0]] + Split(rest) by {
        assert Join(ts) + tail == ts[0] + " " + rest;
        SplitSpace(ts[0], rest);
      }
      assert forall k :: 0 <= k < |ts| - 1 ==> ts[1..][k] == ts[k + 1];
      SplitJoinSuffix(ts[1..], tail);
      assert [ts[0]] + ts[1..] == ts;
    }
  }

  predicate NoBreak(line: string) {
    forall k :: 0 <= k < |line| ==> line[k] != '\n'
  }

  /** Cuts `s` at its line breaks, with `pending` the characters already read of the
      current line; a last line need not end in a break. */
  function LinesFrom(s: string, pending: string): seq<string>
    decreases |s|
  {
    if s == [] then
      (if pending == [] then [] else [pending])
    else if s[0] == '\n' then
      [pending] + LinesFrom(s[1..], [])
    else
      LinesFrom(s[1..], pending + [s[0]])
  }

  /** The lines of a text, each without its line break. */
  function Lines(s: string): seq<string> {
    LinesFrom(s, [])
  }

  /** Reading the characters of a break-free line only extends the pending line. */
  lemma {:induction false} LinesWord(w: string, rest: string, pending: string)
    requires NoBreak(w)
    ensures LinesFrom(w + rest, pending) == LinesFrom(rest, pending + w)
    decreases |w|
  {
    if w == [] {
      assert w + rest == rest;
      assert pending + w == pending;
    } else {
      assert (w + rest)[0] == w[0];
      assert (w + rest)[1..] == w[1..] + rest;
      assert NoBreak(w[1..]) by {
        forall k | 0 <= k < |w[1..]| ensures w[1..][k] != '\n' { assert w[1..][k] == w[k + 1]; }
      }
      LinesWord(w[1..], rest, pending + [w[0]]);
      assert pending + [w[0]] + w[1..] == pending + w;
    }
  }

  /** A line followed by its break comes off the front of the text as one line. */
  lemma LinesCons(line: string, rest: string)
    requires NoBreak(line)
    ensures Lines(line + "\n" + rest) == [line] + Lines(rest)
  {
    assert line + "\n" + rest == line + ("\n" + rest);
    LinesWord(line, "\n" + rest, []);
    assert [] + line == line;
    assert ("\n" + rest)[1..] == rest;
  }

  /** Joining tokens with spaces never produces a line break. */
  lemma {:induction false} JoinNoBreak(ts: seq<string>)
    requires forall k :: 0 <= k < |ts| ==> IsToken(ts[k])
    ensures NoBreak(Join(ts))
    decreases |ts|
  {
    if |ts| > 1 {
      JoinNoBreak(ts[1..]);
      var j := ts[0] + " " + Join(ts[1..]);
      forall k | 0 <= k < |j|
        ensures j[k] != '\n'
      {
        if k < |ts[0]| {
          assert j[k] == ts[0][k];
        } else if k > |ts[0]| {
          assert j[k] == Join(ts[1..])[k - |ts[0]| - 1];
        }
      }
    } else if |ts| == 1 {
      assert IsSpace('\n');
    }
  }

  /** The text of `ls`, each line followed by its break. */
  function Unlines(ls: seq<string>): string {
    if ls == [] then [] else ls[0] + "\n" + Unlines(ls[1..])
  }

  /** Writing one more line appends it with its break. */
  lemma {:induction false} UnlinesSnoc(ls: seq<string>, line: string)
    ensures Unlines(ls + [line]) == Unlines(ls) + line + "\n"
    decreases |ls|
  {
    if ls == [] {
      assert ls + [line] == [line];
      assert [line][1..] == [];
    } else {
      assert (ls + [line])[0] == ls[0];
      assert (ls + [line])[1..] == ls[1..] + [line];
      UnlinesSnoc(ls[1..], line);
    }
  }

  /** Cutting the text of break-free lines at its breaks gives back the lines. */
  lemma {:induction false} LinesUnlines(ls: seq<string>)
    requires forall i :: 0 <= i < |ls| ==> NoBreak(ls[i])
    ensures Lines(Unlines(ls)) == ls
    decreases |ls|
  {
    if ls != [] {
      LinesUnlines(ls[1..]);
      LinesCons(ls[0], Unlines(ls[1..]));
      assert [ls[0]] + ls[1..] == ls;
    }
  }
}
