/** The setup-code throttle: at most ten failed attempts in a rolling minute, kept as a deque of times. */
module SetupThrottle {
  import opened Wrappers

  const LIMIT: nat := 10
  const WINDOW_S := 60.0

  // ---------------------------------------------------------------- the deque

  /** Drop from the left what is more than a window old. */
  function Pruned(failures: seq<real>, now: real): seq<real> {
    if failures != [] && now - failures[0] > WINDOW_S then Pruned(failures[1..], now) else failures
  }

  /** Seconds until another attempt is allowed, or nothing if one is. */
  function RetryAfter(failures: seq<real>, now: real): Option<int> {
    var kept := Pruned(failures, now);
    if |kept| < LIMIT then None else Some((WINDOW_S - (now - kept[0])).Floor + 1)
  }

  // ---------------------------------------------------------------- a history of attempts

  /** A caller that offers a code: when it asks, whether the code is wrong, and when that is recorded. */
  datatype Attempt = Attempt(asked: real, wrong: bool, recorded: real)

  datatype State = State(failures: seq<real>, history: seq<real>)

  function Next(s: State, a: Attempt): State {
    var kept := Pruned(s.failures, a.asked);
    if |kept| < LIMIT && a.wrong then State(kept + [a.recorded], s.history + [a.recorded]) else State(kept, s.history)
  }

  function After(attempts: seq<Attempt>): State {
    if attempts == [] then State([], []) else Next(After(attempts[..|attempts| - 1]), attempts[|attempts| - 1])
  }

  /** Time does not go back, within an attempt or from one to the next. */
  ghost predicate Ordered(attempts: seq<Attempt>) {
    && (forall i :: 0 <= i < |attempts| ==> attempts[i].asked <= attempts[i].recorded)
    && forall i, j :: 0 <= i < j < |attempts| ==> attempts[i].recorded <= attempts[j].asked
  }

  ghost predicate Sorted(times: seq<real>) {
    forall i, j :: 0 <= i < j < |times| ==> times[i] <= times[j]
  }

  /** Eleven failures never fit in a window. */
  ghost predicate Spaced(times: seq<real>) {
    forall i, j :: 0 <= i && i + LIMIT <= j < |times| ==> times[j] - times[i] > WINDOW_S
  }

  /** The deque is the recent end of the history, and what it lacks is more than a window old. */
  ghost predicate IsRecentEnd(failures: seq<real>, history: seq<real>, now: real) {
    && |failures| <= LIMIT && |failures| <= |history|
    && failures == history[|history| - |failures|..]
    && (forall i :: 0 <= i < |history| - |failures| ==> now - history[i] > WINDOW_S)
  }

  ghost predicate AllBy(times: seq<real>, now: real) {
    forall i :: 0 <= i < |times| ==> times[i] <= now
  }

  ghost predicate Refines(s: State, now: real) {
    IsRecentEnd(s.failures, s.history, now) && AllBy(s.history, now) && Sorted(s.history) && Spaced(s.history)
  }

  /** Pruning keeps a suffix, drops only what is old and leaves nothing old in front. */
  lemma {:induction false} PrunedIs(failures: seq<real>, now: real)
    ensures |Pruned(failures, now)| <= |failures|
    ensures Pruned(failures, now) == failures[|failures| - |Pruned(failures, now)|..]
    ensures forall i :: 0 <= i < |failures| - |Pruned(failures, now)| ==> now - failures[i] > WINDOW_S
    ensures Pruned(failures, now) != [] ==> now - Pruned(failures, now)[0] <= WINDOW_S
  {
    if failures != [] && now - failures[0] > WINDOW_S {
      PrunedIs(failures[1..], now);
    }
  }

  lemma PruneRefines(s: State, now: real, later: real)
    requires Refines(s, now) && now <= later
    ensures Refines(State(Pruned(s.failures, later), s.history), later)
  {
    PrunedIs(s.failures, later);
    assert AllBy(s.history, later);
    hide Sorted, Spaced, AllBy;
    var gone, cut := |s.history| - |s.failures|, |s.history| - |Pruned(s.failures, later)|;
    forall i | 0 <= i < cut ensures later - s.history[i] > WINDOW_S {
      if i >= gone {
        assert s.history[i] == s.failures[i - gone];
      }
    }
    hide Pruned;
  }

  lemma RecordRefines(s: State, now: real)
    requires Refines(s, now) && |s.failures| < LIMIT
    ensures Refines(State(s.failures + [now], s.history + [now]), now)
  {
    var h := s.history + [now];
    assert Sorted(h) && AllBy(h, now);
    assert Spaced(h) by { hide Sorted, AllBy; }
    hide Sorted, Spaced, AllBy;
    assert s.failures + [now] == h[|h| - |s.failures| - 1..];
  }

  lemma NextRefines(s: State, now: real, a: Attempt)
    requires Refines(s, now) && now <= a.asked <= a.recorded
    ensures Refines(Next(s, a), a.recorded)
  {
    hide Refines, Pruned;
    PruneRefines(s, now, a.asked);
    var pruned := State(Pruned(s.failures, a.asked), s.history);
    LaterRefines(pruned, a.asked, a.recorded);
    if |pruned.failures| < LIMIT {
      RecordRefines(pruned, a.recorded);
    }
  }

  lemma {:induction false} AfterRefines(attempts: seq<Attempt>, now: real)
    requires Ordered(attempts) && forall i :: 0 <= i < |attempts| ==> attempts[i].recorded <= now
    ensures Refines(After(attempts), now)
  {
    if attempts != [] {
      var init, a := attempts[..|attempts| - 1], attempts[|attempts| - 1];
      AfterRefines(init, a.asked);
      NextRefines(After(init), a.asked, a);
      LaterRefines(After(attempts), a.recorded, now);
    }
  }

  lemma LaterRefines(s: State, now: real, later: real)
    requires Refines(s, now) && now <= later
    ensures Refines(s, later)
  {
  }

  // ---------------------------------------------------------------- counting

  function CountIn(times: seq<real>, from: real, to: real): nat {
    if times == [] then 0 else (if from <= times[0] <= to then 1 else 0) + CountIn(times[1..], from, to)
  }

  lemma {:induction false} CountPrefix(times: seq<real>, k: nat, from: real, to: real)
    requires forall i :: k <= i < |times| ==> times[i] > to
    ensures CountIn(times, from, to) <= k
    decreases |times|
  {
    if times != [] {
      CountPrefix(times[1..], if k == 0 then 0 else k - 1, from, to);
      assert k == 0 ==> times[0] > to;
    }
  }

  lemma {:induction false} CountSuffix(times: seq<real>, k: nat, from: real, to: real)
    requires k <= |times|
    requires forall i :: 0 <= i < k ==> times[i] < from
    requires forall i :: k <= i < |times| ==> from <= times[i] <= to
    ensures CountIn(times, from, to) == |times| - k
    decreases |times|
  {
    if times != [] {
      CountSuffix(times[1..], if k == 0 then 0 else k - 1, from, to);
    }
  }

  lemma {:induction false} SpacedCounts(times: seq<real>, from: real)
    requires Sorted(times) && Spaced(times)
    ensures CountIn(times, from, from + WINDOW_S) <= LIMIT
    decreases |times|
  {
    if times != [] {
      if times[0] < from {
        SpacedCounts(times[1..], from);
      } else {
        CountPrefix(times, LIMIT, from, from + WINDOW_S);
      }
    }
  }

  // ---------------------------------------------------------------- results

  /** Used as the endpoint uses it, every closed interval one window long holds at most ten recorded
   * failures. */
  lemma AtMostTenInAnyWindow(attempts: seq<Attempt>, from: real)
    requires Ordered(attempts)
    ensures CountIn(After(attempts).history, from, from + WINDOW_S) <= LIMIT
  {
    AfterRefines(attempts, if attempts == [] then 0.0 else attempts[|attempts| - 1].recorded);
    SpacedCounts(After(attempts).history, from);
  }

  /** The deque refines the plain definition: an attempt is allowed exactly when fewer than ten failures
   * have been recorded in the window that ends now. */
  lemma AllowedExactly(attempts: seq<Attempt>, now: real)
    requires Ordered(attempts) && forall i :: 0 <= i < |attempts| ==> attempts[i].recorded <= now
    ensures RetryAfter(After(attempts).failures, now).None?
            <==> CountIn(After(attempts).history, now - WINDOW_S, now) < LIMIT
  {
    AfterRefines(attempts, now);
    CountIsKept(After(attempts), now);
    hide After, Ordered, Refines;
  }

  lemma CountIsKept(s: State, now: real)
    requires Refines(s, now)
    ensures CountIn(s.history, now - WINDOW_S, now) == |Pruned(s.failures, now)|
  {
    hide Spaced, Pruned, Sorted, AllBy, IsRecentEnd;
    PruneRefines(s, now, now);
    FrontIsRecent(s.failures, now);
    WindowIsEnd(Pruned(s.failures, now), s.history, now);
  }

  lemma FrontIsRecent(failures: seq<real>, now: real)
    ensures Pruned(failures, now) != [] ==> now - Pruned(failures, now)[0] <= WINDOW_S
  {
    PrunedIs(failures, now);
    hide Pruned;
  }

  /** A recent end whose front is in the window is what the window holds. */
  lemma WindowIsEnd(kept: seq<real>, history: seq<real>, now: real)
    requires IsRecentEnd(kept, history, now) && AllBy(history, now) && Sorted(history)
    requires kept != [] ==> now - kept[0] <= WINDOW_S
    ensures CountIn(history, now - WINDOW_S, now) == |kept|
  {
    var cut := |history| - |kept|;
    if kept != [] {
      assert kept[0] == history[cut];
    }
    forall i | cut <= i < |history| ensures now - WINDOW_S <= history[i] <= now {
      assert history[cut] <= history[i];
    }
    hide Sorted, AllBy;
    CountSuffix(history, cut, now - WINDOW_S, now);
  }

  /** What is recorded: the time of an attempt whose code is wrong, if fewer than ten had been recorded in the minute
   * before it asked; an attempt that is refused, or right, leaves no trace. */
  lemma RecordsExactly(attempts: seq<Attempt>, a: Attempt)
    requires Ordered(attempts + [a])
    ensures var before := After(attempts).history;
            After(attempts + [a]).history
            == before + if a.wrong && CountIn(before, a.asked - 60.0, a.asked) < 10 then [a.recorded] else []
  {
    var all := attempts + [a];
    assert all[..|attempts|] == attempts && all[|attempts|] == a;
    EarlierAttempts(attempts, [a]);
    forall i | 0 <= i < |attempts| ensures attempts[i].recorded <= a.asked {
      assert all[i] == attempts[i];
    }
    AfterRefines(attempts, a.asked);
    CountIsKept(After(attempts), a.asked);
    hide Ordered, Pruned, CountIn, Refines;
  }

  /** The answer is honest: with no failure recorded meanwhile, waiting the seconds it gives always
   * suffices, and it is the least whole number of seconds that does. */
  lemma WaitingSuffices(attempts: seq<Attempt>, now: real, wait: int, later: real)
    requires Ordered(attempts) && forall i :: 0 <= i < |attempts| ==> attempts[i].recorded <= now
    requires RetryAfter(After(attempts).failures, now) == Some(wait)
    ensures wait > 0
    ensures later >= now + wait as real ==> RetryAfter(Pruned(After(attempts).failures, now), later).None?
    ensures now <= later <= now + (wait - 1) as real ==> RetryAfter(Pruned(After(attempts).failures, now), later).Some?
  {
    AfterRefines(attempts, now);
    var s := After(attempts);
    PrunedIs(s.failures, now);
    var kept := Pruned(s.failures, now);
    assert kept == s.failures && |kept| == LIMIT;
    PrunedIs(kept, later);
  }

  lemma {:induction false} HistoryGrows(attempts: seq<Attempt>, more: seq<Attempt>)
    ensures After(attempts).history <= After(attempts + more).history
    decreases |more|
  {
    if more == [] {
      assert attempts + more == attempts;
    } else {
      var fewer := more[..|more| - 1];
      HistoryGrows(attempts, fewer);
      assert (attempts + more)[..|attempts + more| - 1] == attempts + fewer;
    }
  }

  lemma {:induction false} CountSplits(early: seq<real>, late: seq<real>, from: real, to: real)
    ensures CountIn(early + late, from, to) == CountIn(early, from, to) + CountIn(late, from, to)
  {
    if early == [] {
      assert early + late == late;
    } else {
      CountSplits(early[1..], late, from, to);
      assert (early + late)[1..] == early[1..] + late;
    }
  }

  /** The throttle is shared, so other callers may fail during the wait. Waiting frees a place in any case;
   * the attempt is then allowed exactly when the failures recorded since the question leave one over. */
  lemma WaitingAmongOthers(attempts: seq<Attempt>, more: seq<Attempt>, now: real, wait: int, later: real)
    requires Ordered(attempts + more) && (forall i :: 0 <= i < |attempts| ==> attempts[i].recorded <= now)
    requires forall i :: 0 <= i < |more| ==> more[i].recorded <= later
    requires RetryAfter(After(attempts).failures, now) == Some(wait) && later >= now + wait as real
    ensures After(attempts).history <= After(attempts + more).history
    ensures var earlier := After(attempts).history;
            var since := After(attempts + more).history[|earlier|..];
            && CountIn(earlier, later - WINDOW_S, later) < LIMIT
            && (RetryAfter(After(attempts + more).failures, later).None?
                <==> CountIn(since, later - WINDOW_S, later) < LIMIT - CountIn(earlier, later - WINDOW_S, later))
  {
    var all := attempts + more;
    EarlierAttempts(attempts, more);
    hide Ordered, After, Pruned, RetryAfter, CountIn;
    PlaceComesFree(attempts, now, wait, later);
    AllowedExactly(all, later);
    HistoryGrows(attempts, more);
    var before := After(attempts).history;
    var since := After(all).history[|before|..];
    assert After(all).history == before + since;
    CountSplits(before, since, later - WINDOW_S, later);
  }

  lemma EarlierAttempts(attempts: seq<Attempt>, more: seq<Attempt>)
    requires Ordered(attempts + more)
    ensures Ordered(attempts)
  {
    var all := attempts + more;
    assert forall i :: 0 <= i < |attempts| ==> all[i] == attempts[i];
  }

  lemma PlaceComesFree(attempts: seq<Attempt>, now: real, wait: int, later: real)
    requires Ordered(attempts) && forall i :: 0 <= i < |attempts| ==> attempts[i].recorded <= now
    requires RetryAfter(After(attempts).failures, now) == Some(wait) && later >= now + wait as real
    ensures later >= now && CountIn(After(attempts).history, later - WINDOW_S, later) < LIMIT
  {
    hide After, Ordered, CountIn;
    WaitingSuffices(attempts, now, wait, later);
    FullIsKept(attempts, now);
    AllowedExactly(attempts, later);
  }

  /** While an attempt would be refused, pruning drops nothing. */
  lemma FullIsKept(attempts: seq<Attempt>, now: real)
    requires Ordered(attempts) && forall i :: 0 <= i < |attempts| ==> attempts[i].recorded <= now
    requires RetryAfter(After(attempts).failures, now).Some?
    ensures Pruned(After(attempts).failures, now) == After(attempts).failures
  {
    AfterRefines(attempts, now);
    PrunedIs(After(attempts).failures, now);
    hide After, Ordered, Sorted, Spaced, AllBy;
  }

  function Seconds(n: nat): seq<real> {
    seq(n, i requires 0 <= i => i as real)
  }

  function WrongCodes(n: nat): seq<Attempt> {
    seq(n, i requires 0 <= i => Attempt(i as real, true, i as real))
  }

  lemma {:induction false} WrongCodesFill(n: nat)
    requires n <= LIMIT
    ensures After(WrongCodes(n)) == State(Seconds(n), Seconds(n))
  {
    if n > 0 {
      WrongCodesFill(n - 1);
      assert WrongCodes(n)[..n - 1] == WrongCodes(n - 1);
      assert Pruned(Seconds(n - 1), (n - 1) as real) == Seconds(n - 1);
      assert Seconds(n) == Seconds(n - 1) + [(n - 1) as real];
    }
  }

  /** Ten wrong codes in ten seconds; asked at 30, the throttle answers 31. Another caller's wrong code at
   * 60.5 takes the place that had come free, and the attempt at 61 is refused. */
  lemma WaitingLosesThePlace()
    ensures Ordered(WrongCodes(10) + [Attempt(60.5, true, 60.5)])
    ensures RetryAfter(After(WrongCodes(10)).failures, 30.0) == Some(31)
    ensures RetryAfter(After(WrongCodes(10) + [Attempt(60.5, true, 60.5)]).failures, 61.0).Some?
  {
    WrongCodesFill(10);
    var tries := WrongCodes(10) + [Attempt(60.5, true, 60.5)];
    assert tries[..10] == WrongCodes(10);
    var failures := Seconds(10);
    assert Pruned(failures, 30.0) == failures;
    assert failures[1..][0] == 1.0;
    assert Pruned(failures, 60.5) == failures[1..] == Pruned(failures[1..], 60.5);
    var full := failures[1..] + [60.5];
    assert After(tries).failures == full;
    assert full[0] == 1.0 && Pruned(full, 61.0) == full;
  }

  // ---------------------------------------------------------------- the object

  class Throttle {
    var failures: seq<real>

    constructor ()
      ensures failures == []
    {
      failures := [];
    }

    /** Seconds until another attempt is allowed, or nothing if one is. */
    method AskAt(now: real) returns (wait: Option<int>)
      modifies this
      ensures failures == Pruned(old(failures), now)
      ensures wait == RetryAfter(old(failures), now)
    {
      while failures != [] && now - failures[0] > WINDOW_S
        invariant Pruned(failures, now) == Pruned(old(failures), now)
        decreases |failures|
      {
        failures := failures[1..];
      }
      if |failures| < LIMIT {
        return None;
      }
      wait := Some((WINDOW_S - (now - failures[0])).Floor + 1);
    }

    method RecordFailure(now: real)
      modifies this
      ensures failures == old(failures) + [now]
    {
      failures := failures + [now];
    }

    /** What the endpoint does with an offered code. */
    method Offer(a: Attempt, ghost s: State) returns (wait: Option<int>)
      requires failures == s.failures
      modifies this
      ensures failures == Next(s, a).failures
      ensures wait == RetryAfter(s.failures, a.asked)
      ensures failures == Pruned(s.failures, a.asked) + (if wait == None && a.wrong then [a.recorded] else [])
    {
      wait := AskAt(a.asked);
      if wait.None? && a.wrong {
        RecordFailure(a.recorded);
      }
    }
  }
}
