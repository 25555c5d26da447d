/** The challenge rate limiter of src/security.c over true time: windows, and why no 60-second
    interval sees more than twenty grants although the clock wraps at 2^32. */
module RateLimit {
  import opened Bytes

  const WINDOW := 60000
  const PER_WINDOW := 10

  /** A granted challenge request: when, and in which window. */
  datatype Grant = Grant(time: nat, window: nat)

  /** 32-bit elapsed time, as the firmware computes it. */
  function Elapsed(now: nat, since: nat): nat {
    (now - since) % TWO_32
  }

  lemma ElapsedAtMost(time: nat, start: nat)
    requires start <= time
    ensures Elapsed(time % TWO_32, start % TWO_32) <= time - start
    ensures Elapsed(time % TWO_32, start % TWO_32) == (time - start) % TWO_32
  {
    var q := time / TWO_32 - start / TWO_32;
    assert time - start == (time % TWO_32 - start % TWO_32) + TWO_32 * q;
    ModShift(time % TWO_32 - start % TWO_32, q);
  }

  lemma ModShift(a: int, q: int)
    ensures (a + TWO_32 * q) % TWO_32 == a % TWO_32
  {
  }

  function CountWindow(gs: seq<Grant>, w: nat): nat {
    if gs == [] then 0 else CountWindow(gs[..|gs| - 1], w) + if gs[|gs| - 1].window == w then 1 else 0
  }

  function CountBetween(gs: seq<Grant>, from: nat, to: nat): nat {
    if gs == [] then 0
    else CountBetween(gs[..|gs| - 1], from, to) + if from <= gs[|gs| - 1].time <= to then 1 else 0
  }

  /** The history a limiter leaves: windows start at least 60 s apart, each grant lies inside its
      window, and no window holds more than ten. */
  ghost predicate Disciplined(starts: seq<nat>, gs: seq<Grant>) {
    && starts != []
    && (forall w :: 0 <= w < |starts| - 1 ==> starts[w] + WINDOW <= starts[w + 1])
    && (forall i :: 0 <= i < |gs| ==> InWindow(starts, gs[i]))
    && (forall w: nat :: CountWindow(gs, w) <= PER_WINDOW)
  }

  predicate InWindow(starts: seq<nat>, g: Grant) {
    g.window < |starts| && starts[g.window] <= g.time
    && (g.window + 1 < |starts| ==> g.time < starts[g.window + 1])
  }

  lemma {:induction false} StartsApart(starts: seq<nat>, v: nat, w: nat)
    requires forall k :: 0 <= k < |starts| - 1 ==> starts[k] + WINDOW <= starts[k + 1]
    requires v <= w < |starts|
    ensures starts[v] + WINDOW * (w - v) <= starts[w]
  {
    if v == w {
    } else {
      StartsApart(starts, v, w - 1);
    }
  }

  /** Two grants at most 60 s apart are in the same window or in neighbouring ones. */
  lemma NearGrantsShareWindows(starts: seq<nat>, g: Grant, h: Grant)
    requires forall k :: 0 <= k < |starts| - 1 ==> starts[k] + WINDOW <= starts[k + 1]
    requires InWindow(starts, g) && InWindow(starts, h) && g.window <= h.window && h.time <= g.time + WINDOW
    ensures h.window <= g.window + 1
  {
    if h.window >= g.window + 2 {
      StartsApart(starts, g.window + 1, h.window);
    }
  }

  lemma {:induction false} CountBetweenTwoWindows(gs: seq<Grant>, from: nat, to: nat, w: nat)
    requires forall i :: 0 <= i < |gs| && from <= gs[i].time <= to ==> gs[i].window == w || gs[i].window == w + 1
    ensures CountBetween(gs, from, to) <= CountWindow(gs, w) + CountWindow(gs, w + 1)
  {
    if gs == [] {
    } else {
      CountBetweenTwoWindows(gs[..|gs| - 1], from, to, w);
    }
  }

  lemma {:induction false} CountNone(gs: seq<Grant>, from: nat, to: nat)
    requires forall i :: 0 <= i < |gs| ==> !(from <= gs[i].time <= to)
    ensures CountBetween(gs, from, to) == 0
  {
    if gs == [] {
    } else {
      CountNone(gs[..|gs| - 1], from, to);
    }
  }

  /** The earliest window that has a grant between from and to. */
  lemma {:induction false} EarliestWindow(gs: seq<Grant>, from: nat, to: nat) returns (k: nat)
    requires exists i :: 0 <= i < |gs| && from <= gs[i].time <= to
    ensures k < |gs| && from <= gs[k].time <= to
    ensures forall i :: 0 <= i < |gs| && from <= gs[i].time <= to ==> gs[k].window <= gs[i].window
  {
    k :| 0 <= k < |gs| && from <= gs[k].time <= to;
    for j := 0 to |gs|
      invariant k < |gs| && from <= gs[k].time <= to
      invariant forall i :: 0 <= i < j && from <= gs[i].time <= to ==> gs[k].window <= gs[i].window
    {
      if from <= gs[j].time <= to && gs[j].window < gs[k].window {
        k := j;
      }
    }
  }

  /** Any interval of 60,000 ms, both ends included, holds at most twenty grants. */
  lemma AtMostTwenty(starts: seq<nat>, gs: seq<Grant>, from: nat)
    requires Disciplined(starts, gs)
    ensures CountBetween(gs, from, from + 60000) <= 20
  {
    var to := from + WINDOW;
    if exists i :: 0 <= i < |gs| && from <= gs[i].time <= to {
      var k := EarliestWindow(gs, from, to);
      forall i | 0 <= i < |gs| && from <= gs[i].time <= to
        ensures gs[i].window == gs[k].window || gs[i].window == gs[k].window + 1
      {
        NearGrantsShareWindows(starts, gs[k], gs[i]);
      }
      CountBetweenTwoWindows(gs, from, to, gs[k].window);
    } else {
      CountNone(gs, from, to);
    }
  }

  // ----- the two steps that extend a history -----

  lemma OpenWindow(starts: seq<nat>, gs: seq<Grant>, start: nat)
    requires Disciplined(starts, gs) && starts[|starts| - 1] + WINDOW <= start
    requires forall i :: 0 <= i < |gs| && gs[i].window == |starts| - 1 ==> gs[i].time < start
    ensures Disciplined(starts + [start], gs) && CountWindow(gs, |starts|) == 0
  {
    hide CountWindow;
    forall i | 0 <= i < |gs|
      ensures InWindow(starts + [start], gs[i])
    {
      assert InWindow(starts, gs[i]);
    }
    CountUnused(gs, |starts|);
  }

  lemma {:induction false} CountUnused(gs: seq<Grant>, w: nat)
    requires forall i :: 0 <= i < |gs| ==> gs[i].window < w
    ensures CountWindow(gs, w) == 0
  {
    if gs == [] {
    } else {
      CountUnused(gs[..|gs| - 1], w);
    }
  }

  lemma AddGrant(starts: seq<nat>, gs: seq<Grant>, time: nat)
    requires Disciplined(starts, gs) && starts[|starts| - 1] <= time
    requires CountWindow(gs, |starts| - 1) < PER_WINDOW
    ensures Disciplined(starts, gs + [Grant(time, |starts| - 1)])
    ensures CountWindow(gs + [Grant(time, |starts| - 1)], |starts| - 1) == CountWindow(gs, |starts| - 1) + 1
  {
    var g := Grant(time, |starts| - 1);
    assert (gs + [g])[..|gs|] == gs;
    forall w: nat
      ensures CountWindow(gs + [g], w) <= PER_WINDOW
    {
    }
  }
}
