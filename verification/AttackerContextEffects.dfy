/** A source's context read off the set of its sightings, with no sorting and no windows. */
module AttackerContextEffects {
  import opened Common
  import opened ObservationWindows

  /** The sightings of a history that parse. */
  ghost function Sightings(h: History): set<Moment> {
    set value | value in h.observedAt && value.Some? :: value.value
  }

  /** `u` is the sighting last before `t`. */
  ghost predicate LastBefore(seen: set<Moment>, u: Moment, t: Moment) {
    u in seen && u < t && forall other :: other in seen && other < t ==> other <= u
  }

  /** A sighting with earlier ones, all of them six hours or more before it. */
  ghost predicate IsReturn(seen: set<Moment>, t: Moment) {
    && t in seen
    && (exists u :: u in seen && u < t)
    && forall u :: u in seen && u < t ==> t - u >= 21_600_000_000
  }

  ghost function Returns(seen: set<Moment>): set<Moment> {
    set t | t in seen && IsReturn(seen, t)
  }

  /** `t` is the latest return and `u` the sighting last before it. */
  ghost predicate LatestReturn(seen: set<Moment>, u: Moment, t: Moment) {
    IsReturn(seen, t) && LastBefore(seen, u, t) && forall other :: IsReturn(seen, other) ==> other <= t
  }

  ghost function Elements(s: seq<Moment>): set<Moment> {
    set t | t in s
  }

  lemma AddLatest(seen: set<Moment>, t: Moment)
    requires forall u :: u in seen ==> u <= t
    ensures forall x :: x in seen ==> (IsReturn(seen + {t}, x) <==> IsReturn(seen, x))
    ensures forall u, x :: x in seen ==> (LastBefore(seen + {t}, u, x) <==> LastBefore(seen, u, x))
  {
    forall x | x in seen
      ensures IsReturn(seen + {t}, x) <==> IsReturn(seen, x)
    {
      if exists u :: u in seen + {t} && u < x {
        var u :| u in seen + {t} && u < x;
        assert u in seen;
      }
      if exists u :: u in seen && u < x {
        var u :| u in seen && u < x;
        assert u in seen + {t};
      }
    }
  }

  /** A return is exactly a sighting six hours after the one last before it. */
  lemma AddSighting(before: set<Moment>, last: Moment, t: Moment)
    requires last in before && last <= t && forall u :: u in before ==> u <= last
    ensures var after, gap := before + {t}, t - last >= GAP;
            && (gap ==> t !in before && IsReturn(after, t) && LastBefore(after, last, t))
            && (!gap ==> (IsReturn(after, t) ==> t in before))
            && Returns(after) == Returns(before) + if gap then {t} else {}
  {
    var after := before + {t};
    assert last in after;
    assert t - last >= GAP ==> IsReturn(after, t);
    assert t - last < GAP && t !in before ==> !IsReturn(after, t);
    AddLatest(before, t);
    hide IsReturn, LastBefore;
  }

  /** One sighting more, no earlier than all others. */
  lemma NextSighting(s: seq<Moment>)
    requires Sorted(s) && |s| > 1
    ensures var n := |s| - 1;
            var before, after, gap := Elements(s[..n]), Elements(s), s[n] - s[n - 1] >= GAP;
            && after == before + {s[n]}
            && (forall u :: u in before ==> u <= s[n])
            && (gap ==> s[n] !in before && IsReturn(after, s[n]) && LastBefore(after, s[n - 1], s[n]))
            && (!gap ==> (IsReturn(after, s[n]) ==> s[n] in before))
            && Returns(after) == Returns(before) + if gap then {s[n]} else {}
  {
    hide IsReturn, LastBefore, Returns;
    var n := |s| - 1;
    var before := Elements(s[..n]);
    assert s == s[..n] + [s[n]];
    assert Elements(s) == before + {s[n]};
    assert s[..n][n - 1] == s[n - 1] && s[n - 1] in before;
    forall u | u in before
      ensures u <= s[n - 1]
    {
      var i :| 0 <= i < n && s[..n][i] == u;
      assert s[i] <= s[n - 1];
    }
    AddSighting(before, s[n - 1], s[n]);
  }

  lemma {:induction false} LargeGapsAreReturns(s: seq<Moment>)
    requires Sorted(s)
    ensures LargeGaps(s) == |Returns(Elements(s))|
    decreases |s|
  {
    if |s| < 2 {
      assert Returns(Elements(s)) == {};
    } else {
      LargeGapsAreReturns(s[..|s| - 1]);
      NextSighting(s);
      assert s[|s| - 1] - s[|s| - 2] >= GAP ==> s[|s| - 1] !in Returns(Elements(s[..|s| - 1]));
    }
  }

  lemma ReturnStays(seen: set<Moment>, t: Moment, u: Moment, latest: Moment)
    requires (forall x :: x in seen ==> x <= t) && (IsReturn(seen + {t}, t) ==> t in seen)
    requires LatestReturn(seen, u, latest)
    ensures LatestReturn(seen + {t}, u, latest)
  {
    AddLatest(seen, t);
    forall x | IsReturn(seen + {t}, x)
      ensures x <= latest
    {
      assert x in seen && IsReturn(seen, x);
    }
  }

  /** The last two windows meet at the latest return. */
  lemma {:induction false} LastWindows(s: seq<Moment>)
    requires Sorted(s)
    ensures var w := Windows(s);
            && (s != [] ==> w[|w| - 1].1 == s[|s| - 1])
            && (|w| >= 2 ==> LatestReturn(Elements(s), w[|w| - 2].1, w[|w| - 1].0))
    decreases |s|
  {
    hide Windows, Elements, Returns, IsReturn, LastBefore, LatestReturn;
    if s != [] {
      var n := |s| - 1;
      var t := s[n];
      LastWindows(s[..n]);
      WindowsStep(s[..n], t);
      assert s == s[..n] + [t];
      if n > 0 {
        assert s[..n][n - 1] == s[n - 1];
        NextSighting(s);
        var w, w', before := Windows(s), Windows(s[..n]), Elements(s[..n]);
        if t - s[n - 1] >= GAP {
          LatestNow(before, s[n - 1], t);
        } else if |w| >= 2 {
          ReturnStays(before, t, w'[|w'| - 2].1, w'[|w'| - 1].0);
        }
      }
    }
  }

  lemma LatestNow(seen: set<Moment>, u: Moment, t: Moment)
    requires (forall x :: x in seen ==> x <= t) && IsReturn(seen + {t}, t) && LastBefore(seen + {t}, u, t)
    ensures LatestReturn(seen + {t}, u, t)
  {
  }

  lemma {:induction false} PresentMembers(values: seq<Option<Moment>>)
    ensures forall t :: t in Present(values) <==> Some(t) in values
    decreases |values|
  {
    if values != [] {
      var n := |values| - 1;
      PresentMembers(values[..n]);
      assert values == values[..n] + [values[n]];
    }
  }

  lemma SortedSightings(h: History)
    ensures Sorted(Sort(Present(h.observedAt))) && Elements(Sort(Present(h.observedAt))) == Sightings(h)
  {
    var s := Present(h.observedAt);
    SortSorts(s);
    SameElements(Sort(s), s);
    PresentMembers(h.observedAt);
    forall t
      ensures t in Elements(Sort(s)) <==> t in Sightings(h)
    {
      assert Some(t).value == t;
    }
  }

  /** Hours rounded to the nearest, halves to the even hour. */
  ghost predicate Rounds(hours: int, span: int) {
    && -1_800_000_000 <= hours * 3_600_000_000 - span <= 1_800_000_000
    && (hours * 3_600_000_000 - span == 1_800_000_000 || span - hours * 3_600_000_000 == 1_800_000_000 ==> hours % 2 == 0)
  }

  lemma ContextOfWindows(h: History)
    ensures var c, w, s := ContextOf(h), Windows(Sort(Present(h.observedAt))), Sort(Present(h.observedAt));
            && |w| == |Split(s)| == c.windowCount
            && (|w| >= 2 ==> Rounds(c.returnedAfterHours, w[|w| - 1].0 - w[|w| - 2].1))
            && (|w| < 2 ==> c.returnedAfterHours == 0)
  {
    hide Sort, Present, Split;
    ReturnIsNeverSoonerThanTheGap(h);
  }

  /** One window more than there are returns; the hours are those from the sighting before the latest return to it. */
  lemma WindowsCountReturns(h: History)
    ensures var c, seen := ContextOf(h), Sightings(h);
            && c.windowCount == (if seen == {} then 0 else 1 + |Returns(seen)|)
            && (Returns(seen) == {} ==> c.returnedAfterHours == 0)
            && (Returns(seen) != {} ==>
                  exists u, t :: LatestReturn(seen, u, t) && Rounds(c.returnedAfterHours, t - u))
  {
    var s, w := Sort(Present(h.observedAt)), Windows(Sort(Present(h.observedAt)));
    hide ContextOf, IsReturn, LastBefore, LatestReturn, Rounds, Windows, Split, Sort, Present;
    ContextOfWindows(h);
    SortedSightings(h);
    SplitCount(s);
    LargeGapsAreReturns(s);
    LastWindows(s);
    assert s != [] ==> s[0] in Elements(s);
    assert |Returns(Elements(s))| == 0 <==> Returns(Elements(s)) == {};
  }

  /** The days a stored history spans by its first and last sighting: none without both, and never less than one. */
  ghost predicate Spans(h: History, days: int) {
    if h.firstSeen.None? || h.lastSeen.None? then days == 0
    else
      var difference := h.lastSeen.value / 86_400_000_000 - h.firstSeen.value / 86_400_000_000 + 1;
      days == if difference < 1 then 1 else difference
  }

  /**
   A source is returning exactly when two of its sightings fall on different days or one follows all earlier ones by
   six hours; the days observed are the largest of the stored count, the span and the days with a sighting.
   */
  lemma ReturningExactlyWhen(h: History)
    ensures var c, seen := ContextOf(h), Sightings(h);
            && (c.isReturning <==>
                || (exists a, b :: a in seen && b in seen && a / 86_400_000_000 != b / 86_400_000_000)
                || exists t :: IsReturn(seen, t))
            && c.headline == (if c.isReturning then ReturningAttacker else if seen != {} then RepeatedActivity else NoPriorHistory)
            && c.distinctDays == |set t | t in seen :: t / 86_400_000_000|
            && (exists span :: Spans(h, span) && c.daysObserved == LargestOf(h.daysObserved, span, c.distinctDays))
  {
    var seen := Sightings(h);
    ContextFields(h);
    hide ContextOf;
    WindowsCountReturns(h);
    hide Rounds, LatestReturn, LastBefore;
    DaysDiffer(seen);
    assert Spans(h, DaysBetween(h.firstSeen, h.lastSeen));
    SomeReturn(seen);
  }

  function LargestOf(a: int, b: int, c: int): (largest: int)
    ensures largest >= a && largest >= b && largest >= c && (largest == a || largest == b || largest == c)
  {
    if a >= b && a >= c then a else if b >= c then b else c
  }

  lemma SomeReturn(seen: set<Moment>)
    ensures |Returns(seen)| > 0 <==> exists t :: IsReturn(seen, t)
  {
    if exists t :: IsReturn(seen, t) {
      var t :| IsReturn(seen, t);
      assert t in Returns(seen);
    }
    if |Returns(seen)| > 0 {
      var t :| t in Returns(seen);
      assert IsReturn(seen, t);
    }
  }

  lemma ContextFields(h: History)
    ensures var c, days := ContextOf(h), set t | t in Sightings(h) :: t / 86_400_000_000;
            && c.distinctDays == |days|
            && (c.isReturning <==> |days| >= 2 || c.windowCount >= 2)
            && c.headline == (if c.isReturning then ReturningAttacker else if c.windowCount > 0 then RepeatedActivity else NoPriorHistory)
            && c.daysObserved == LargestOf(h.daysObserved, DaysBetween(h.firstSeen, h.lastSeen), |days|)
  {
    var s := Sort(Present(h.observedAt));
    SortedSightings(h);
    ReturnIsNeverSoonerThanTheGap(h);
    hide Sort, Present, Windows;
    assert DistinctDays(s) == set t | t in Sightings(h) :: t / 86_400_000_000 by {
      assert forall t :: t in s <==> t in Elements(s);
    }
  }

  lemma DaysDiffer(seen: set<Moment>)
    ensures |set t | t in seen :: t / 86_400_000_000| >= 2 <==>
            exists a, b :: a in seen && b in seen && a / 86_400_000_000 != b / 86_400_000_000
  {
    var days := set t | t in seen :: t / 86_400_000_000;
    if a, b :| a in seen && b in seen && a / 86_400_000_000 != b / 86_400_000_000 {
      assert {a / 86_400_000_000, b / 86_400_000_000} <= days;
      TwoInside({a / 86_400_000_000, b / 86_400_000_000}, days);
    }
    if |days| >= 2 {
      var x :| x in days;
      assert |days - {x}| >= 1;
      var y :| y in days - {x};
      var a :| a in seen && a / 86_400_000_000 == x;
      var b :| b in seen && b / 86_400_000_000 == y;
    }
  }

  lemma TwoInside(two: set<int>, days: set<int>)
    requires two <= days
    ensures |two| <= |days|
  {
    assert days == two + (days - two);
  }
}
