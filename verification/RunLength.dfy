/**
 * Run-length encoding of an index stream. A run is one `[count, colour]` pair of the hex output;
 * counts are capped at 255 so that they fit a byte.
 */
module RunLength {
  datatype Run = Run(count: int, color: int)

  const CAP := 255

  /** `n` copies of a colour; none when a malformed run says zero or less. */
  function Copies(color: int, n: int): seq<int> {
    seq(if n < 0 then 0 else n, _ => color)
  }

  function Expand(runs: seq<Run>): seq<int> {
    if runs == [] then [] else Copies(runs[0].color, runs[0].count) + Expand(runs[1..])
  }

  /** One iteration of the encoder's loop: extend the open run, or close it and open another. */
  function Append(runs: seq<Run>, color: int): seq<Run> {
    var n := |runs| - 1;
    if n < 0 || color != runs[n].color || runs[n].count == CAP
    then runs + [Run(1, color)]
    else runs[..n] + [Run(runs[n].count + 1, color)]
  }

  /** The runs the encoder has closed or opened after reading `data`. */
  function Runs(data: seq<int>): seq<Run> {
    if data == [] then [] else Append(Runs(data[..|data| - 1]), data[|data| - 1])
  }

  /** Counts fit a byte and are not zero; two neighbours share a colour only if the first is full. */
  predicate IsGreedy(runs: seq<Run>) {
    && (forall i :: 0 <= i < |runs| ==> 1 <= runs[i].count <= CAP)
    && (forall i, j :: 0 <= i && j == i + 1 < |runs| && runs[i].color == runs[j].color ==> runs[i].count == CAP)
  }

  lemma ConcatAssoc<T>(a: seq<T>, b: seq<T>, c: seq<T>)
    ensures a + (b + c) == (a + b) + c
  {
  }

  lemma {:induction false} ExpandConcat(a: seq<Run>, b: seq<Run>)
    ensures Expand(a + b) == Expand(a) + Expand(b)
  {
    if a == [] {
      assert a + b == b;
    } else {
      var r, rest := a[0], a[1..];
      ExpandConcat(rest, b);
      assert (a + b)[0] == r && (a + b)[1..] == rest + b;
      ConcatAssoc(Copies(r.color, r.count), Expand(rest), Expand(b));
    }
  }

  lemma ExpandLast(runs: seq<Run>, r: Run)
    ensures Expand(runs + [r]) == Expand(runs) + Copies(r.color, r.count)
  {
    ExpandConcat(runs, [r]);
    assert [r][1..] == [];
    assert Expand([r]) == Copies(r.color, r.count);
  }

  lemma AppendExpands(runs: seq<Run>, color: int)
    requires IsGreedy(runs)
    ensures IsGreedy(Append(runs, color))
    ensures Expand(Append(runs, color)) == Expand(runs) + [color]
  {
    var n := |runs| - 1;
    if n < 0 || color != runs[n].color || runs[n].count == CAP {
      ExpandLast(runs, Run(1, color));
      assert Copies(color, 1) == [color];
    } else {
      var shorter, count := runs[..n], runs[n].count;
      assert runs == shorter + [Run(count, color)];
      ExpandLast(shorter, Run(count, color));
      ExpandLast(shorter, Run(count + 1, color));
      assert Copies(color, count + 1) == Copies(color, count) + [color];
      assert Expand(shorter) + (Copies(color, count) + [color]) == (Expand(shorter) + Copies(color, count)) + [color];
    }
  }

  /** Lossless: expanding the runs gives back the stream, and every count is in 1..255. */
  lemma {:induction false} Lossless(data: seq<int>)
    ensures Expand(Runs(data)) == data
    ensures IsGreedy(Runs(data))
  {
    if data != [] {
      var init, last := data[..|data| - 1], data[|data| - 1];
      Lossless(init);
      AppendExpands(Runs(init), last);
      assert data == init + [last];
    }
  }

  /** No run list with counts of at most 255 says the same with fewer runs. */
  lemma Optimal(data: seq<int>, other: seq<Run>)
    requires forall i :: 0 <= i < |other| ==> other[i].count <= CAP
    requires Expand(other) == data
    ensures |Runs(data)| <= |other|
  {
    Lossless(data);
    StaysAhead([], Runs(data), other);
  }

  /** The greedy list `g` is ahead of `other` by `lead`: then it also finishes with no more runs. */
  lemma {:induction false} StaysAhead(lead: seq<int>, g: seq<Run>, other: seq<Run>)
    requires IsGreedy(g)
    requires forall i :: 0 <= i < |other| ==> other[i].count <= CAP
    requires Expand(other) == lead + Expand(g)
    ensures |g| <= |other|
    decreases |other|
  {
    if other == [] {
      GreedyExpandsToSomething(g);
    } else if g != [] {
      var r, rest := other[0], Expand(other[1..]);
      var c := if r.count < 0 then 0 else r.count;
      if c <= |lead| {
        assert rest == Expand(other)[c..] == lead[c..] + Expand(g);
        StaysAhead(lead[c..], g, other[1..]);
      } else {
        var m := c - |lead|;
        assert forall i :: 0 <= i < m ==> Expand(g)[i] == Expand(other)[|lead| + i] == r.color;
        FirstRunIsLongest(g, m);
        var left := Copies(g[0].color, g[0].count - m);
        assert Expand(g)[m..] == left + Expand(g[1..]);
        assert rest == Expand(other)[c..] == Expand(g)[m..];
        StaysAhead(left, g[1..], other[1..]);
      }
    }
  }

  /** A stretch of at most 255 equal values at the front lies inside the first greedy run. */
  lemma FirstRunIsLongest(g: seq<Run>, m: nat)
    requires IsGreedy(g) && g != [] && 1 <= m <= CAP && m <= |Expand(g)|
    requires forall i :: 0 <= i < m ==> Expand(g)[i] == Expand(g)[0]
    ensures m <= g[0].count
  {
    var first := Copies(g[0].color, g[0].count);
    assert Expand(g) == first + Expand(g[1..]);
    if |g| > 1 {
      assert Expand(g[1..]) == Copies(g[1].color, g[1].count) + Expand(g[1..][1..]);
      assert Expand(g)[g[0].count] == g[1].color;
      assert Expand(g)[0] == g[0].color;
    }
  }

  lemma GreedyExpandsToSomething(g: seq<Run>)
    requires IsGreedy(g)
    ensures g != [] ==> Expand(g) != []
  {
    if g != [] { assert |Copies(g[0].color, g[0].count)| >= 1; }
  }
}
