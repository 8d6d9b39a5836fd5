/** Where in a sequence something happens: last, first, and how often. */
module Occurrences {
  import opened Wrappers

  function Last<T>(xs: seq<T>, p: T -> bool): (r: Option<nat>)
    ensures r.Some? ==> r.value < |xs| && p(xs[r.value]) && forall j :: r.value < j < |xs| ==> !p(xs[j])
    ensures r.None? ==> forall j :: 0 <= j < |xs| ==> !p(xs[j])
  {
    if xs == [] then None
    else
      var n := |xs| - 1;
      if p(xs[n]) then Some(n)
      else
        assert forall j :: 0 <= j < n ==> xs[..n][j] == xs[j];
        Last(xs[..n], p)
  }

  function First<T>(xs: seq<T>, p: T -> bool): (r: Option<nat>)
    ensures r.Some? ==> r.value < |xs| && p(xs[r.value]) && forall j :: 0 <= j < r.value ==> !p(xs[j])
    ensures r.None? ==> forall j :: 0 <= j < |xs| ==> !p(xs[j])
  {
    if xs == [] then None
    else
      var n := |xs| - 1;
      assert forall j :: 0 <= j < n ==> xs[..n][j] == xs[j];
      var r := First(xs[..n], p);
      if r.Some? then r else if p(xs[n]) then Some(n) else None
  }

  /** The element itself. */
  function LastOf<T>(xs: seq<T>, p: T -> bool): (r: Option<T>)
    ensures r.Some? ==> p(r.value)
  {
    var k := Last(xs, p);
    if k.Some? then Some(xs[k.value]) else None
  }

  function FirstOf<T>(xs: seq<T>, p: T -> bool): (r: Option<T>)
    ensures r.Some? ==> p(r.value)
  {
    var k := First(xs, p);
    if k.Some? then Some(xs[k.value]) else None
  }

  function Count<T>(xs: seq<T>, p: T -> bool): nat {
    if xs == [] then 0 else Count(xs[..|xs| - 1], p) + if p(xs[|xs| - 1]) then 1 else 0
  }

  // ---------- one more element ----------

  lemma LastSnoc<T>(init: seq<T>, x: T, p: T -> bool)
    ensures Last(init + [x], p) == if p(x) then Some(|init|) else Last(init, p)
    ensures LastOf(init + [x], p) == if p(x) then Some(x) else LastOf(init, p)
  {
    assert (init + [x])[..|init|] == init && (init + [x])[|init|] == x;
  }

  lemma FirstSnoc<T>(init: seq<T>, x: T, p: T -> bool)
    ensures First(init + [x], p) ==
            if First(init, p).Some? then First(init, p) else if p(x) then Some(|init|) else None
    ensures FirstOf(init + [x], p) ==
            if FirstOf(init, p).Some? then FirstOf(init, p) else if p(x) then Some(x) else None
  {
    assert (init + [x])[..|init|] == init && (init + [x])[|init|] == x;
  }

  lemma CountSnoc<T>(init: seq<T>, x: T, p: T -> bool)
    ensures Count(init + [x], p) == Count(init, p) + if p(x) then 1 else 0
  {
    assert (init + [x])[..|init|] == init && (init + [x])[|init|] == x;
  }

  lemma TailSnoc<T>(xs: seq<T>, x: T, k: nat)
    requires k <= |xs|
    ensures (xs + [x])[k..] == xs[k..] + [x]
    ensures (xs + [x])[|xs| + 1..] == [] && (xs + [x])[|xs|] == x
  {
  }

  /** A longer sequence has the same first occurrence. */
  lemma {:induction false} FirstStays<T>(xs: seq<T>, i: nat, p: T -> bool)
    requires i <= |xs| && FirstOf(xs[..i], p).Some?
    ensures FirstOf(xs, p) == FirstOf(xs[..i], p)
    decreases |xs| - i
  {
    if i < |xs| {
      FirstSnoc(xs[..i], xs[i], p);
      assert xs[..i + 1] == xs[..i] + [xs[i]];
      FirstStays(xs, i + 1, p);
    } else {
      assert xs[..i] == xs;
    }
  }
}
