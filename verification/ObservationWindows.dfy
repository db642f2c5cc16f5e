/** Returning-attacker history: a source's sightings split into observation windows at gaps of six hours or more. */
module ObservationWindows {
  import opened Common

  /** A datetime in UTC, in microseconds since the epoch. */
  type Moment = int

  const HOUR := 3_600_000_000
  const DAY := 24 * HOUR
  const GAP := 6 * HOUR

  function DayOf(t: Moment): int {
    t / DAY
  }

  /** A stored history. Sightings that do not parse are None. */
  datatype History = History(
    observedAt: seq<Option<Moment>>,
    firstSeen: Option<Moment>,
    lastSeen: Option<Moment>,
    daysObserved: int)

  datatype Headline = ReturningAttacker | RepeatedActivity | NoPriorHistory

  datatype Context = Context(
    isReturning: bool,
    headline: Headline,
    daysObserved: int,
    distinctDays: nat,
    windowCount: nat,
    returnedAfterHours: int)

  // ---------- sorting ----------

  function Present(values: seq<Option<Moment>>): seq<Moment> {
    if values == [] then []
    else
      var last := values[|values| - 1];
      Present(values[..|values| - 1]) + if last.Some? then [last.value] else []
  }

  predicate Sorted(s: seq<Moment>) {
    forall i, j :: 0 <= i < j < |s| ==> s[i] <= s[j]
  }

  function Insert(s: seq<Moment>, t: Moment): seq<Moment> {
    if s == [] || s[|s| - 1] <= t then s + [t] else Insert(s[..|s| - 1], t) + [s[|s| - 1]]
  }

  /** list.sort(). */
  function Sort(s: seq<Moment>): seq<Moment> {
    if s == [] then [] else Insert(Sort(s[..|s| - 1]), s[|s| - 1])
  }

  lemma LastOut(s: seq<Moment>)
    requires s != []
    ensures multiset(s) == multiset(s[..|s| - 1]) + multiset{s[|s| - 1]}
  {
    assert s == s[..|s| - 1] + [s[|s| - 1]];
  }

  lemma {:induction false} InsertKeeps(s: seq<Moment>, t: Moment)
    ensures multiset(Insert(s, t)) == multiset(s) + multiset{t}
    decreases |s|
  {
    if s != [] {
      LastOut(s);
      InsertKeeps(s[..|s| - 1], t);
    }
  }

  lemma {:induction false} InsertSorts(s: seq<Moment>, t: Moment)
    requires Sorted(s)
    ensures Sorted(Insert(s, t))
    ensures forall x :: x in Insert(s, t) ==> x == t || x in s
    decreases |s|
  {
    if s != [] && s[|s| - 1] > t {
      var front := s[..|s| - 1];
      InsertSorts(front, t);
      var r := Insert(front, t);
      assert forall i :: 0 <= i < |r| ==> r[i] in r;
      assert forall x :: x in front ==> x <= s[|s| - 1];
    }
  }

  lemma {:induction false} SortSorts(s: seq<Moment>)
    ensures Sorted(Sort(s)) && multiset(Sort(s)) == multiset(s)
    decreases |s|
  {
    if s != [] {
      SortSorts(s[..|s| - 1]);
      InsertSorts(Sort(s[..|s| - 1]), s[|s| - 1]);
      InsertKeeps(Sort(s[..|s| - 1]), s[|s| - 1]);
      LastOut(s);
    }
  }

  lemma SameElements(a: seq<Moment>, b: seq<Moment>)
    requires multiset(a) == multiset(b)
    ensures |a| == |b| && forall x :: x in a <==> x in b
  {
    assert |multiset(a)| == |a| && |multiset(b)| == |b|;
    assert forall x :: x in a <==> x in multiset(a);
  }

  lemma SameButLast(a: seq<Moment>, b: seq<Moment>)
    requires Sorted(a) && Sorted(b) && multiset(a) == multiset(b) && a != []
    ensures b != [] && a[|a| - 1] == b[|b| - 1] && multiset(a[..|a| - 1]) == multiset(b[..|b| - 1])
  {
    SameElements(a, b);
    var x, y := a[|a| - 1], b[|b| - 1];
    assert x in a && y in b;
    assert x in b && y in a;
    LastOut(a);
    LastOut(b);
    assert multiset(a[..|a| - 1]) == multiset(a) - multiset{x};
    assert multiset(b[..|b| - 1]) == multiset(b) - multiset{x};
  }

  lemma {:induction false} SortedIsUnique(a: seq<Moment>, b: seq<Moment>)
    requires Sorted(a) && Sorted(b) && multiset(a) == multiset(b)
    ensures a == b
    decreases |a|
  {
    if a == [] {
      SameElements(a, b);
    } else {
      SameButLast(a, b);
      SortedIsUnique(a[..|a| - 1], b[..|b| - 1]);
      assert a == a[..|a| - 1] + [a[|a| - 1]] && b == b[..|b| - 1] + [b[|b| - 1]];
    }
  }

  // ---------- the split ----------

  function Flatten(windows: seq<seq<Moment>>): seq<Moment> {
    if windows == [] then [] else Flatten(windows[..|windows| - 1]) + windows[|windows| - 1]
  }

  /** A burst: consecutive sightings less than the gap apart. */
  predicate Burst(w: seq<Moment>) {
    w != [] && forall i, j :: 0 <= i < |w| && 0 <= j < |w| && j == i + 1 ==> w[j] - w[i] < GAP
  }

  predicate Apart(before: seq<Moment>, after: seq<Moment>)
    requires before != [] && after != []
  {
    after[0] - before[|before| - 1] >= GAP
  }

  /** `windows` cuts `s` into bursts that lie at least the gap apart. */
  predicate IsSplit(s: seq<Moment>, windows: seq<seq<Moment>>) {
    && Flatten(windows) == s
    && (forall k :: 0 <= k < |windows| ==> Burst(windows[k]))
    && (forall j, k :: 0 <= j < |windows| && 0 <= k < |windows| && k == j + 1 ==> Apart(windows[j], windows[k]))
  }

  function Split(s: seq<Moment>): seq<seq<Moment>> {
    if s == [] then []
    else
      var n := |s| - 1;
      var older := Split(s[..n]);
      if older == [] || s[n] - s[n - 1] >= GAP then older + [[s[n]]] else Widen(older, s[n])
  }

  /** Adds a sighting to the last window. */
  function Widen(windows: seq<seq<Moment>>, t: Moment): seq<seq<Moment>>
    requires windows != []
  {
    windows[..|windows| - 1] + [windows[|windows| - 1] + [t]]
  }

  function LargeGaps(s: seq<Moment>): nat {
    if |s| < 2 then 0 else LargeGaps(s[..|s| - 1]) + if s[|s| - 1] - s[|s| - 2] >= GAP then 1 else 0
  }

  /** The last window ends where the sightings end. */
  lemma LastOfSplit(s: seq<Moment>, windows: seq<seq<Moment>>)
    requires IsSplit(s, windows)
    ensures s == [] <==> windows == []
    ensures windows != [] ==> s != [] && windows[|windows| - 1] != [] && windows[|windows| - 1][|windows[|windows| - 1]| - 1] == s[|s| - 1]
  {
    if windows != [] {
      assert Burst(windows[|windows| - 1]);
    }
  }

  lemma CutStep(s: seq<Moment>, windows: seq<seq<Moment>>, t: Moment)
    requires IsSplit(s, windows)
    requires windows != [] ==> s != [] && t - s[|s| - 1] >= GAP
    ensures IsSplit(s + [t], windows + [[t]])
  {
    LastOfSplit(s, windows);
    assert (windows + [[t]])[..|windows|] == windows;
  }

  lemma WidenStep(s: seq<Moment>, windows: seq<seq<Moment>>, t: Moment)
    requires IsSplit(s, windows) && windows != [] && s != []
    requires t - s[|s| - 1] < GAP
    ensures IsSplit(s + [t], Widen(windows, t))
  {
    LastOfSplit(s, windows);
    var m := |windows| - 1;
    var wide := Widen(windows, t);
    assert wide[..m] == windows[..m];
    assert Flatten(windows[..m]) + (windows[m] + [t]) == Flatten(windows) + [t];
    assert Burst(windows[m]);
    assert m > 0 ==> Apart(windows[m - 1], windows[m]);
  }

  /** Split is such a cut ... */
  lemma {:induction false} SplitIsSplit(s: seq<Moment>)
    ensures IsSplit(s, Split(s))
    decreases |s|
  {
    if s != [] {
      var n := |s| - 1;
      var older := Split(s[..n]);
      SplitIsSplit(s[..n]);
      LastOfSplit(s[..n], older);
      assert s[..n] + [s[n]] == s;
      if n == 0 || s[n] - s[n - 1] >= GAP {
        CutStep(s[..n], older, s[n]);
      } else {
        WidenStep(s[..n], older, s[n]);
      }
    }
  }

  /** ... with one window more than there are large gaps. */
  lemma {:induction false} SplitCount(s: seq<Moment>)
    ensures |Split(s)| == if s == [] then 0 else 1 + LargeGaps(s)
    decreases |s|
  {
    if s != [] {
      SplitCount(s[..|s| - 1]);
    }
  }

  /** There is only one such cut. */
  lemma {:induction false} SplitIsUnique(s: seq<Moment>, windows: seq<seq<Moment>>)
    requires IsSplit(s, windows)
    ensures windows == Split(s)
    decreases |s|
  {
    LastOfSplit(s, windows);
    if s != [] {
      var n, m := |s| - 1, |windows| - 1;
      var last := windows[m];
      if |last| == 1 {
        DropWindow(s, windows);
        SplitIsUnique(s[..n], windows[..m]);
        assert windows == windows[..m] + [[s[n]]];
      } else {
        var shorter := windows[..m] + [last[..|last| - 1]];
        DropSighting(s, windows, shorter);
        SplitIsUnique(s[..n], shorter);
        assert windows == Widen(shorter, s[n]);
      }
    }
  }

  lemma DropWindow(s: seq<Moment>, windows: seq<seq<Moment>>)
    requires IsSplit(s, windows) && windows != [] && |windows[|windows| - 1]| == 1
    ensures s != [] && IsSplit(s[..|s| - 1], windows[..|windows| - 1]) && windows[|windows| - 1] == [s[|s| - 1]]
    ensures |windows| > 1 ==> |s| > 1 && s[|s| - 1] - s[|s| - 2] >= GAP
  {
    var m := |windows| - 1;
    assert Flatten(windows[..m]) == s[..|s| - 1];
    LastOfSplit(s[..|s| - 1], windows[..m]);
    assert m > 0 ==> Apart(windows[m - 1], windows[m]);
  }

  lemma DropSighting(s: seq<Moment>, windows: seq<seq<Moment>>, shorter: seq<seq<Moment>>)
    requires IsSplit(s, windows) && windows != [] && |windows[|windows| - 1]| > 1
    requires var last := windows[|windows| - 1]; shorter == windows[..|windows| - 1] + [last[..|last| - 1]]
    ensures |s| > 1 && IsSplit(s[..|s| - 1], shorter) && windows == Widen(shorter, s[|s| - 1])
    ensures s[|s| - 1] - s[|s| - 2] < GAP
  {
    var m := |windows| - 1;
    var last := windows[m];
    assert Burst(last);
    assert last == last[..|last| - 1] + [last[|last| - 1]];
    assert shorter[..m] == windows[..m];
    assert Flatten(windows[..m]) + last[..|last| - 1] == s[..|s| - 1];
    assert m > 0 ==> Apart(windows[m - 1], windows[m]);
    assert last[|last| - 1] - last[|last| - 2] < GAP;
    LastOfSplit(s[..|s| - 1], shorter);
  }

  // ---------- the source's loop ----------

  predicate NoneEmpty(windows: seq<seq<Moment>>) {
    forall k :: 0 <= k < |windows| ==> windows[k] != []
  }

  function Ends(windows: seq<seq<Moment>>): (ends: seq<(Moment, Moment)>)
    requires NoneEmpty(windows)
    ensures |ends| == |windows|
  {
    if windows == [] then []
    else
      var last := windows[|windows| - 1];
      Ends(windows[..|windows| - 1]) + [(last[0], last[|last| - 1])]
  }

  lemma {:induction false} EndsAt(windows: seq<seq<Moment>>, k: nat)
    requires NoneEmpty(windows) && k < |windows|
    ensures Ends(windows)[k] == (windows[k][0], windows[k][|windows[k]| - 1])
    decreases |windows|
  {
    if k < |windows| - 1 {
      EndsAt(windows[..|windows| - 1], k);
    }
  }

  lemma SplitHasNoneEmpty(s: seq<Moment>)
    ensures NoneEmpty(Split(s)) && (s == [] <==> Split(s) == [])
  {
    SplitIsSplit(s);
    LastOfSplit(s, Split(s));
    assert forall k :: 0 <= k < |Split(s)| ==> Burst(Split(s)[k]);
  }

  function Windows(s: seq<Moment>): (w: seq<(Moment, Moment)>)
    ensures w == [] <==> s == []
  {
    SplitHasNoneEmpty(s);
    Ends(Split(s))
  }

  lemma WindowsStep(s: seq<Moment>, t: Moment)
    ensures Windows(s + [t]) ==
            if s == [] || t - s[|s| - 1] >= GAP then Windows(s) + [(t, t)]
            else Windows(s)[..|Windows(s)| - 1] + [(Windows(s)[|Windows(s)| - 1].0, t)]
  {
    SplitHasNoneEmpty(s);
    assert (s + [t])[..|s|] == s;
    var cut := Split(s);
    if s == [] || t - s[|s| - 1] >= GAP {
      assert Split(s + [t]) == cut + [[t]];
      assert (cut + [[t]])[..|cut|] == cut;
    } else {
      assert Split(s + [t]) == Widen(cut, t);
      assert Widen(cut, t)[..|cut| - 1] == cut[..|cut| - 1];
    }
  }

  /** One turn of the loop: `closed` windows and an open one that began at `start`. */
  lemma WindowsNext(s: seq<Moment>, i: nat, closed: seq<(Moment, Moment)>, start: Moment)
    requires 0 < i < |s| && Windows(s[..i]) == closed + [(start, s[i - 1])]
    ensures Windows(s[..i + 1]) ==
            if s[i] - s[i - 1] >= GAP then closed + [(start, s[i - 1])] + [(s[i], s[i])] else closed + [(start, s[i])]
  {
    WindowsStep(s[..i], s[i]);
    assert s[..i + 1] == s[..i] + [s[i]];
    assert (closed + [(start, s[i - 1])])[..|closed|] == closed;
  }

  method BuildObservationWindows(observedAt: seq<Moment>) returns (windows: seq<(Moment, Moment)>)
    ensures windows == Windows(observedAt)
  {
    if observedAt == [] { return []; }
    windows := [];
    var windowStart, previous := observedAt[0], observedAt[0];
    WindowsStep([], previous);
    assert observedAt[..1] == [] + [previous];
    for i := 1 to |observedAt|
      invariant previous == observedAt[i - 1]
      invariant Windows(observedAt[..i]) == windows + [(windowStart, previous)]
    {
      var current := observedAt[i];
      WindowsNext(observedAt, i, windows, windowStart);
      if current - previous >= GAP {
        windows := windows + [(windowStart, previous)];
        windowStart := current;
      }
      previous := current;
    }
    assert observedAt[..|observedAt|] == observedAt;
    windows := windows + [(windowStart, previous)];
  }

  method NormalizeObservedTimestamps(values: seq<Option<Moment>>) returns (normalized: seq<Moment>)
    ensures normalized == Sort(Present(values))
  {
    normalized := [];
    for i := 0 to |values|
      invariant normalized == Present(values[..i])
    {
      assert values[..i + 1][..i] == values[..i];
      if values[i].Some? { normalized := normalized + [values[i].value]; }
    }
    assert values[..|values|] == values;
    normalized := Sort(normalized);
  }

  // ---------- the context ----------

  /** int(round(x / 1 hour)): halves go to the even hour. */
  function RoundedHours(span: int): (hours: int)
    ensures -HOUR <= 2 * (hours * HOUR - span) <= HOUR
    ensures 2 * (hours * HOUR - span) == HOUR || 2 * (hours * HOUR - span) == -HOUR ==> hours % 2 == 0
  {
    var whole, rest := span / HOUR, span % HOUR;
    if 2 * rest < HOUR then whole
    else if 2 * rest > HOUR then whole + 1
    else if whole % 2 == 0 then whole else whole + 1
  }

  function DistinctDays(s: seq<Moment>): set<int> {
    set t | t in s :: DayOf(t)
  }

  function DaysBetween(first: Option<Moment>, last: Option<Moment>): int {
    if first.None? || last.None? then 0 else Max(DayOf(last.value) - DayOf(first.value) + 1, 1)
  }

  function ReturnedAfter(windows: seq<(Moment, Moment)>): int {
    if |windows| < 2 then 0 else Max(RoundedHours(windows[|windows| - 1].0 - windows[|windows| - 2].1), 1)
  }

  function ContextFrom(h: History, s: seq<Moment>, windows: seq<(Moment, Moment)>): Context {
    var days := |DistinctDays(s)|;
    var returning := days >= 2 || |windows| >= 2;
    Context(returning, if returning then ReturningAttacker else if s != [] then RepeatedActivity else NoPriorHistory,
            Max(Max(h.daysObserved, DaysBetween(h.firstSeen, h.lastSeen)), days), days, |windows|, ReturnedAfter(windows))
  }

  function ContextOf(h: History): Context {
    ContextFrom(h, Sort(Present(h.observedAt)), Windows(Sort(Present(h.observedAt))))
  }

  method BuildReturningAttackerContext(h: History) returns (c: Context)
    ensures c == ContextOf(h)
  {
    var observedAt := NormalizeObservedTimestamps(h.observedAt);
    var windows := BuildObservationWindows(observedAt);
    c := Classify(h, observedAt, windows);
  }

  method Classify(h: History, observedAt: seq<Moment>, windows: seq<(Moment, Moment)>) returns (c: Context)
    ensures c == ContextFrom(h, observedAt, windows)
  {
    var days := |DistinctDays(observedAt)|;
    var returnedAfterHours := 0;
    if |windows| >= 2 {
      returnedAfterHours := Max(RoundedHours(windows[|windows| - 1].0 - windows[|windows| - 2].1), 1);
    }
    var headline := NoPriorHistory;
    if days >= 2 { headline := ReturningAttacker; }
    else if |windows| >= 2 { headline := ReturningAttacker; }
    else if observedAt != [] { headline := RepeatedActivity; }
    return Context(days >= 2 || |windows| >= 2, headline,
                   Max(Max(h.daysObserved, DaysBetween(h.firstSeen, h.lastSeen)), days), days, |windows|, returnedAfterHours);
  }

  lemma {:induction false} PresentCount(values: seq<Option<Moment>>, t: Moment)
    ensures multiset(Present(values))[t] == multiset(values)[Some(t)]
    decreases |values|
  {
    if values != [] {
      var n := |values| - 1;
      PresentCount(values[..n], t);
      assert values == values[..n] + [values[n]];
      assert multiset(values) == multiset(values[..n]) + multiset{values[n]};
    }
  }

  /** Neither the order in which sightings were stored nor sightings that do not parse change the context. */
  lemma ContextIgnoresOrder(h: History, shuffled: seq<Option<Moment>>)
    requires forall t :: multiset(shuffled)[Some(t)] == multiset(h.observedAt)[Some(t)]
    ensures ContextOf(h) == ContextOf(h.(observedAt := shuffled))
  {
    forall t
      ensures multiset(Present(shuffled))[t] == multiset(Present(h.observedAt))[t]
    {
      PresentCount(shuffled, t);
      PresentCount(h.observedAt, t);
    }
    assert multiset(Present(shuffled)) == multiset(Present(h.observedAt));
    SortSorts(Present(shuffled));
    SortSorts(Present(h.observedAt));
    SortedIsUnique(Sort(Present(shuffled)), Sort(Present(h.observedAt)));
  }

  /** The hours are at least six exactly when there are two windows, and zero otherwise: the source's floor of one never acts. */
  lemma ReturnIsNeverSoonerThanTheGap(h: History)
    ensures var c := ContextOf(h);
            && (c.windowCount >= 2 ==> c.returnedAfterHours >= 6 && c.isReturning)
            && (c.windowCount < 2 ==> c.returnedAfterHours == 0)
            && (c.isReturning <==> c.headline == ReturningAttacker)
            && (c.headline == NoPriorHistory <==> c.windowCount == 0)
  {
    var s := Sort(Present(h.observedAt));
    var cut := Split(s);
    var m := |cut| - 1;
    SplitIsSplit(s);
    if m >= 1 {
      assert Apart(cut[m - 1], cut[m]);
      EndsAt(cut, m);
      EndsAt(cut, m - 1);
      assert RoundedHours(Windows(s)[m].0 - Windows(s)[m - 1].1) >= 6;
    }
    if s == [] {
      assert DistinctDays(s) == {};
    }
  }

  ghost predicate Ordered(w: seq<(Moment, Moment)>) {
    && (forall j, k :: 0 <= j < |w| && 0 <= k < |w| && k == j + 1 ==> w[k].0 - w[j].1 >= GAP)
    && (forall k :: 0 <= k < |w| ==> w[k].0 <= w[k].1)
  }

  ghost predicate Within(window: (Moment, Moment), t: Moment) {
    window.0 <= t <= window.1
  }

  lemma WindowsAreOrdered(s: seq<Moment>)
    requires Sorted(s)
    ensures Ordered(Windows(s))
  {
    var cut, w := Split(s), Windows(s);
    SplitIsSplit(s);
    forall k | 0 <= k < |w|
      ensures w[k].0 <= w[k].1
      ensures k > 0 ==> w[k].0 - w[k - 1].1 >= GAP
    {
      PartIsSorted(s, cut, k);
      EndsAt(cut, k);
      assert Burst(cut[k]);
      if k > 0 {
        EndsAt(cut, k - 1);
        assert Apart(cut[k - 1], cut[k]);
      }
    }
  }

  /** Windows are in order and at least the gap apart, and every sighting lies in exactly one of them. */
  lemma WindowsPartition(s: seq<Moment>, t: Moment)
    requires Sorted(s) && t in s
    ensures Ordered(Windows(s))
    ensures exists k :: 0 <= k < |Windows(s)| && Within(Windows(s)[k], t)
    ensures forall j, k :: 0 <= j < k < |Windows(s)| ==> !(Within(Windows(s)[j], t) && Within(Windows(s)[k], t))
  {
    WindowsAreOrdered(s);
    var cut, w := Split(s), Windows(s);
    SplitIsSplit(s);
    InSomeWindow(cut, t);
    var k :| 0 <= k < |cut| && t in cut[k];
    PartIsSorted(s, cut, k);
    EndsAt(cut, k);
    assert Within(w[k], t);
    forall j, k | 0 <= j < k < |w|
      ensures w[j].1 < w[k].0
    {
      Increasing(w, j, k);
    }
  }

  lemma {:induction false} InSomeWindow(windows: seq<seq<Moment>>, t: Moment)
    requires t in Flatten(windows)
    ensures exists k :: 0 <= k < |windows| && t in windows[k]
    decreases |windows|
  {
    if t !in windows[|windows| - 1] {
      InSomeWindow(windows[..|windows| - 1], t);
    }
  }

  lemma {:induction false} PartIsSorted(s: seq<Moment>, windows: seq<seq<Moment>>, k: nat)
    requires Sorted(s) && Flatten(windows) == s && k < |windows|
    ensures Sorted(windows[k])
    decreases |windows|
  {
    var m := |windows| - 1;
    var front := Flatten(windows[..m]);
    if k < m {
      assert forall i :: 0 <= i < |front| ==> front[i] == s[i];
      PartIsSorted(front, windows[..m], k);
    } else {
      assert forall i :: 0 <= i < |windows[m]| ==> windows[m][i] == s[|front| + i];
    }
  }

  lemma {:induction false} Increasing(w: seq<(Moment, Moment)>, j: nat, k: nat)
    requires j < k < |w| && Ordered(w)
    ensures w[j].1 < w[k].0
    decreases k
  {
    if j < k - 1 {
      Increasing(w, j, k - 1);
    }
  }
}
