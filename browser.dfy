/** The vocabulary in which browser facts enter the model: probe answers, step outcomes, reported progress. */
module Browser {
  import opened Wrappers

  /** What a visibility probe answered: visible, not visible, or the probe threw. */
  datatype Probe = Shown | NotShown | ProbeFailed

  /** How a browser step ended: normally, or with a Playwright error whose message may say the page was closed. */
  datatype Stage = Ok | Threw(pageClosed: bool)

  /** A query for one element, tried with a primary and sometimes a backup selector. */
  datatype Query<T> = Hit(element: T) | Miss | Fail

  /** The element a primary/backup lookup yields: the backup is tried only when the primary threw. */
  function WithBackup<T>(primary: Query<T>, backup: Query<T>): (r: Query<T>)
    ensures primary.Hit? ==> r == primary
    ensures primary.Miss? ==> r.Miss?
    ensures primary.Fail? ==> r == backup
  {
    if primary.Fail? then backup else primary
  }

  /** A callback to the caller: a progress report in percent, or a value handed over. */
  datatype Event<T> = Progress(percent: int) | Emitted(item: T)

  /** The percentages reported, in order. */
  function Percents<T>(trace: seq<Event<T>>): (r: seq<int>)
    ensures |r| <= |trace|
  {
    if trace == [] then []
    else Percents(trace[..|trace| - 1]) + (if trace[|trace| - 1].Progress? then [trace[|trace| - 1].percent] else [])
  }

  /** The values handed over, in order. */
  function EmittedItems<T>(trace: seq<Event<T>>): (r: seq<T>)
    ensures |r| <= |trace|
  {
    if trace == [] then []
    else EmittedItems(trace[..|trace| - 1]) + (if trace[|trace| - 1].Emitted? then [trace[|trace| - 1].item] else [])
  }

  lemma {:induction false} PercentsAppend<T>(a: seq<Event<T>>, b: seq<Event<T>>)
    ensures Percents(a + b) == Percents(a) + Percents(b)
    decreases |b|
  {
    if b == [] {
      assert a + b == a;
    } else {
      assert (a + b)[..|a + b| - 1] == a + b[..|b| - 1];
      PercentsAppend(a, b[..|b| - 1]);
    }
  }

  lemma {:induction false} EmittedAppend<T>(a: seq<Event<T>>, b: seq<Event<T>>)
    ensures EmittedItems(a + b) == EmittedItems(a) + EmittedItems(b)
    decreases |b|
  {
    if b == [] {
      assert a + b == a;
    } else {
      assert (a + b)[..|a + b| - 1] == a + b[..|b| - 1];
      EmittedAppend(a, b[..|b| - 1]);
    }
  }

  /** A value handed over, then a report. */
  lemma PairEvents<T>(x: T, p: int)
    ensures Percents([Emitted(x), Progress(p)]) == [p]
    ensures EmittedItems([Emitted(x), Progress(p)]) == [x]
  {
    var t: seq<Event<T>> := [Emitted(x), Progress(p)];
    assert t[..1] == [Emitted(x)] && t[..1][..0] == [];
  }

  /** Reported progress never goes down and stays within 0..100. */
  predicate SteadyProgress(ps: seq<int>)
  {
    (forall i :: 0 <= i < |ps| ==> 0 <= ps[i] <= 100)
    && forall i, j :: 0 <= i < j < |ps| ==> ps[i] <= ps[j]
  }

  /** Multiplying by a non-negative factor keeps order. */
  lemma {:induction false} MulMonotone(a: int, b: int, d: nat)
    requires a <= b
    ensures a * d <= b * d
  {
    if d > 0 {
      MulMonotone(a, b, d - 1);
      assert a * d == a * (d - 1) + a && b * d == b * (d - 1) + b;
    }
  }

  lemma MulCancel(a: int, b: int, d: nat)
    requires a * d < b * d
    ensures a < b
  {
    if b <= a {
      MulMonotone(b, a, d);
    }
  }

  /** Integer division by a positive divisor, as the progress formulas use it, keeps order. */
  lemma DivMonotone(x: nat, y: nat, d: nat)
    requires x <= y && d >= 1
    ensures x / d <= y / d
  {
    var qx, qy := x / d, y / d;
    assert x == qx * d + x % d && 0 <= x % d;
    assert y == qy * d + y % d && y % d < d;
    assert (qy + 1) * d == qy * d + d;
    MulCancel(qx, qy + 1, d);
  }

  lemma DivOfMultiple(k: nat, d: nat)
    requires d >= 1
    ensures k * d / d == k
  {
    var q, r := k * d / d, k * d % d;
    assert k * d == q * d + r && 0 <= r < d;
    assert (q + 1) * d == q * d + d && (k + 1) * d == k * d + d;
    MulCancel(k, q + 1, d);
    MulCancel(q, k + 1, d);
  }

  lemma SteadyAppend(a: seq<int>, b: seq<int>)
    requires SteadyProgress(a) && SteadyProgress(b)
    requires a != [] && b != [] ==> a[|a| - 1] <= b[0]
    ensures SteadyProgress(a + b)
  {
    var s := a + b;
    forall i, j | 0 <= i < j < |s|
      ensures s[i] <= s[j]
    {
      if j < |a| {
      } else if i >= |a| {
        assert s[i] == b[i - |a|] && s[j] == b[j - |a|];
      } else {
        assert s[i] == a[i] && s[j] == b[j - |a|];
        assert a[i] <= a[|a| - 1];
        assert b[0] <= b[j - |a|];
      }
    }
  }

  /** A run of progress reports only. */
  function Reports<T>(ps: seq<int>): (r: seq<Event<T>>)
    ensures |r| == |ps|
    ensures forall i :: 0 <= i < |ps| ==> r[i] == Progress(ps[i])
  {
    seq(|ps|, i requires 0 <= i < |ps| => Progress(ps[i]))
  }

  /** Reports hand nothing over and report exactly their percentages. */
  lemma {:induction false} ReportsOnly<T>(ps: seq<int>)
    ensures Percents(Reports<T>(ps)) == ps
    ensures EmittedItems(Reports<T>(ps)) == []
    decreases |ps|
  {
    if ps != [] {
      var init := ps[..|ps| - 1];
      ReportsOnly<T>(init);
      assert Reports<T>(ps)[..|ps| - 1] == Reports<T>(init);
    }
  }

  /** The values a partial extraction yields, in order (a loop that skips the elements it cannot read). */
  function Collect<T, U>(f: T -> Option<U>, xs: seq<T>): (r: seq<U>)
    ensures |r| <= |xs|
  {
    if xs == [] then []
    else Collect(f, xs[..|xs| - 1]) + (if f(xs[|xs| - 1]).Some? then [f(xs[|xs| - 1]).value] else [])
  }

  lemma {:induction false} CollectAppend<T, U>(f: T -> Option<U>, a: seq<T>, b: seq<T>)
    ensures Collect(f, a + b) == Collect(f, a) + Collect(f, b)
    decreases |b|
  {
    if b == [] {
      assert a + b == a;
    } else {
      assert (a + b)[..|a + b| - 1] == a + b[..|b| - 1];
      CollectAppend(f, a, b[..|b| - 1]);
    }
  }

  /** A value is collected exactly when some element yields it. */
  lemma {:induction false} CollectMembers<T, U>(f: T -> Option<U>, xs: seq<T>, y: U)
    ensures y in Collect(f, xs) <==> exists i :: 0 <= i < |xs| && f(xs[i]) == Some(y)
    decreases |xs|
  {
    if xs != [] {
      var init := xs[..|xs| - 1];
      CollectMembers(f, init, y);
      assert forall i :: 0 <= i < |init| ==> init[i] == xs[i];
      if exists i :: 0 <= i < |xs| && f(xs[i]) == Some(y) {
        var i :| 0 <= i < |xs| && f(xs[i]) == Some(y);
        if i < |init| {
          assert f(init[i]) == Some(y);
        }
      }
    }
  }

  /** Nothing is skipped when every element yields a value. */
  lemma {:induction false} CollectAll<T, U>(f: T -> Option<U>, xs: seq<T>)
    requires forall i :: 0 <= i < |xs| ==> f(xs[i]).Some?
    ensures |Collect(f, xs)| == |xs|
    decreases |xs|
  {
    if xs != [] {
      CollectAll(f, xs[..|xs| - 1]);
    }
  }

  lemma SteadyPrefix(ps: seq<int>, n: nat)
    requires SteadyProgress(ps) && n <= |ps|
    ensures SteadyProgress(ps[..n])
  {
  }
}
