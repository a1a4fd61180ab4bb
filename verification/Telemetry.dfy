/** The per-target rate limit of the diagnostic sink. */
module Telemetry {
  import opened Prelude

  /** Seconds. */
  const RATE_WINDOW := 60

  const NOTICE := "further records for this target are suppressed until the rate-limit window resets"

  datatype RecordOutcome = Recorded | Filtered | SuppressionNotice | Suppressed
  {
    predicate WasWritten() {
      Recorded? || SuppressionNotice?
    }
  }

  datatype Window = Window(started: nat, count: nat, noticeEmitted: bool)

  /** A severity rank: 0 is the most severe. */
  type Level = nat

  datatype Attempt = Attempt(now: nat, level: Level, target: string)

  /** The saturating difference of two instants. */
  function Since(now: nat, earlier: nat): nat {
    if now >= earlier then now - earlier else 0
  }

  predicate Expired(w: Option<Window>, now: nat) {
    w.None? || Since(now, w.value.started) >= RATE_WINDOW
  }

  /** One admitted record against its target's window. */
  function Step(limit: nat, w: Option<Window>, now: nat): (Window, RecordOutcome) {
    var current := if Expired(w, now) then Window(now, 0, false) else w.value;
    if current.count < limit then (current.(count := current.count + 1), Recorded)
    else if !current.noticeEmitted then (current.(noticeEmitted := true), SuppressionNotice)
    else (current, Suppressed)
  }

  function Lookup(windows: map<string, Window>, target: string): Option<Window> {
    if target in windows then Some(windows[target]) else None
  }

  function Attempted(limit: nat, floor: Level, windows: map<string, Window>, a: Attempt): (map<string, Window>, RecordOutcome) {
    if a.level > floor then (windows, Filtered)
    else
      var (w, outcome) := Step(limit, Lookup(windows, a.target), a.now);
      (windows[a.target := w], outcome)
  }

  class Sink {
    const limit: nat
    const floor: Level
    var windows: map<string, Window>
    var lines: seq<(string, string)>

    constructor (limit: nat, floor: Level)
      ensures this.limit == limit && this.floor == floor && windows == map[] && lines == []
    {
      this.limit, this.floor, windows, lines := limit, floor, map[], [];
    }

    /** Count the record in, or refuse it. */
    method WithinRateLimit(now: nat, target: string) returns (within: bool)
      modifies this`windows
      ensures target in windows && windows.Keys == old(windows.Keys) + {target}
      ensures forall t <- old(windows) :: t != target ==> windows[t] == old(windows)[t]
      ensures var w := old(Lookup(windows, target));
              var current := if Expired(w, now) then Window(now, 0, false) else w.value;
              within == (current.count < limit)
              && windows[target] == if within then current.(count := current.count + 1) else current
    {
      if target !in windows { windows := windows[target := Window(now, 0, false)]; }
      if Since(now, windows[target].started) >= RATE_WINDOW {
        windows := windows[target := Window(now, 0, false)];
      }
      if limit == 0 { return false; }
      if windows[target].count < limit {
        windows := windows[target := windows[target].(count := windows[target].count + 1)];
        return true;
      }
      return false;
    }

    method MarkNotice(now: nat, target: string) returns (first: bool)
      modifies this`windows
      ensures target in windows
      ensures var w := if target in old(windows) then old(windows)[target] else Window(now, 0, false);
              first == !w.noticeEmitted && windows == old(windows)[target := w.(noticeEmitted := true)]
    {
      if target !in windows { windows := windows[target := Window(now, 0, false)]; }
      if windows[target].noticeEmitted { return false; }
      windows := windows[target := windows[target].(noticeEmitted := true)];
      return true;
    }

    method RecordAt(a: Attempt, message: string) returns (outcome: RecordOutcome)
      modifies this
      ensures (windows, outcome) == Attempted(limit, floor, old(windows), a)
      ensures lines == old(lines) + match outcome
                                    case Recorded => [(a.target, message)]
                                    case SuppressionNotice => [(a.target, NOTICE)]
                                    case _ => []
    {
      if a.level > floor { return Filtered; }
      ghost var before := windows;
      var within := WithinRateLimit(a.now, a.target);
      if !within {
        var first := MarkNotice(a.now, a.target);
        assert windows == before[a.target := windows[a.target]];
        if !first { return Suppressed; }
        lines := lines + [(a.target, NOTICE)];
        return SuppressionNotice;
      }
      assert windows == before[a.target := windows[a.target]];
      lines := lines + [(a.target, message)];
      return Recorded;
    }
  }

  // One target alone.

  function After(limit: nat, times: seq<nat>): Option<Window> {
    if times == [] then None else Some(Step(limit, After(limit, times[..|times| - 1]), times[|times| - 1]).0)
  }

  function OutcomeOf(limit: nat, times: seq<nat>): RecordOutcome
    requires times != []
  {
    Step(limit, After(limit, times[..|times| - 1]), times[|times| - 1]).1
  }

  predicate Monotone(times: seq<nat>) {
    forall i, j :: 0 <= i < j < |times| ==> times[i] <= times[j]
  }

  /** Where the window a record falls in began, and its place in it.  Neither depends
      on the limit. */
  function Opened(times: seq<nat>): nat
    requires times != []
  {
    var init, now := times[..|times| - 1], times[|times| - 1];
    if init == [] || Since(now, Opened(init)) >= RATE_WINDOW then now else Opened(init)
  }

  function Place(times: seq<nat>): nat
    requires times != []
  {
    var init, now := times[..|times| - 1], times[|times| - 1];
    if init == [] || Since(now, Opened(init)) >= RATE_WINDOW then 1 else Place(init) + 1
  }

  /** The first `limit` records of a window are written, the next one becomes its only
      notice, and the rest are suppressed. */
  lemma {:induction false} OutcomeByPlace(limit: nat, times: seq<nat>)
    requires times != []
    ensures After(limit, times) ==
            Some(Window(Opened(times), if Place(times) < limit then Place(times) else limit, Place(times) > limit))
    ensures OutcomeOf(limit, times) ==
            if Place(times) <= limit then Recorded
            else if Place(times) == limit + 1 then SuppressionNotice else Suppressed
  {
    if |times| > 1 {
      OutcomeByPlace(limit, times[..|times| - 1]);
    }
  }

  /** How many records of a trace are written in the interval of one window length
      that begins at `from`. */
  function WrittenFrom(limit: nat, times: seq<nat>, from: nat): nat {
    if times == [] then 0
    else WrittenFrom(limit, times[..|times| - 1], from)
         + if OutcomeOf(limit, times).WasWritten() && from <= times[|times| - 1] < from + RATE_WINDOW then 1 else 0
  }

  lemma {:induction false} NothingBefore(limit: nat, times: seq<nat>, from: nat)
    requires forall t <- times :: t < from
    ensures WrittenFrom(limit, times, from) == 0
  {
    if times != [] {
      var init := times[..|times| - 1];
      assert times[|times| - 1] in times && forall t <- init :: t in times;
      NothingBefore(limit, init, from);
    }
  }

  function Emitted(w: Window): nat {
    w.count + if w.noticeEmitted then 1 else 0
  }

  /** What the window state knows about the interval. */
  lemma {:induction false} WindowBoundsInterval(limit: nat, times: seq<nat>, from: nat)
    requires times != [] && Monotone(times)
    ensures var w := After(limit, times).value;
            var total := WrittenFrom(limit, times, from);
            && w.started <= times[|times| - 1] < w.started + RATE_WINDOW
            && 1 <= Emitted(w) <= limit + 1
            && (w.started < from ==> total + 1 <= Emitted(w))
            && (from <= w.started < from + RATE_WINDOW ==> total <= limit + Emitted(w))
            && total <= 2 * limit + 1
  {
    var init, now := times[..|times| - 1], times[|times| - 1];
    if init != [] {
      WindowBoundsInterval(limit, init, from);
      if now < from {
        NothingBefore(limit, init, from);
      }
    }
  }

  /** The window is fixed, not sliding: an interval of its length can straddle two
      windows, but then it misses the record that opened the first one. */
  lemma IntervalBound(limit: nat, times: seq<nat>, from: nat)
    requires Monotone(times)
    ensures WrittenFrom(limit, times, from) <= 2 * limit + 1
  {
    if times != [] {
      WindowBoundsInterval(limit, times, from);
    }
  }

  lemma OneMore(limit: nat, times: seq<nat>, now: nat, from: nat)
    ensures After(limit, times + [now]) == Some(Step(limit, After(limit, times), now).0)
    ensures WrittenFrom(limit, times + [now], from) == WrittenFrom(limit, times, from)
            + if Step(limit, After(limit, times), now).1.WasWritten() && from <= now < from + RATE_WINDOW then 1 else 0
  {
    assert (times + [now])[..|times|] == times;
  }

  function Repeat(now: nat, k: nat): (times: seq<nat>)
    ensures |times| == k && forall t <- times :: t == now
  {
    if k == 0 then [] else Repeat(now, k - 1) + [now]
  }

  ghost predicate HasRoom(limit: nat, w: Window, k: nat) {
    w.count <= limit && (w.noticeEmitted ==> w.count == limit) && Emitted(w) + k <= limit + 1
  }

  lemma RoomIsUsed(limit: nat, w: Window, now: nat, k: nat)
    requires HasRoom(limit, w, k + 1) && !Expired(Some(w), now)
    ensures var (w', outcome) := Step(limit, Some(w), now);
            HasRoom(limit, w', k) && w'.started == w.started && Emitted(w') == Emitted(w) + 1 && outcome.WasWritten()
  {
  }

  /** Records that a window still has room for, its notice included, are all written. */
  lemma {:induction false} BurstIsWritten(limit: nat, times: seq<nat>, w: Window, now: nat, k: nat, from: nat)
    requires After(limit, times) == Some(w) && !Expired(Some(w), now)
    requires HasRoom(limit, w, k)
    requires from <= now < from + RATE_WINDOW
    ensures After(limit, times + Repeat(now, k)).Some?
    ensures var w' := After(limit, times + Repeat(now, k)).value;
            w'.started == w.started && Emitted(w') == Emitted(w) + k && HasRoom(limit, w', 0)
    ensures WrittenFrom(limit, times + Repeat(now, k), from) == WrittenFrom(limit, times, from) + k
  {
    if k == 0 {
      assert times + Repeat(now, 0) == times;
    } else {
      BurstIsWritten(limit, times, w, now, k - 1, from);
      assert times + Repeat(now, k) == (times + Repeat(now, k - 1)) + [now];
      OneMore(limit, times + Repeat(now, k - 1), now, from);
      RoomIsUsed(limit, After(limit, times + Repeat(now, k - 1)).value, now, 0);
    }
  }

  /** One record opens a window, which its last second fills; the next second opens and
      fills another. */
  function Straddling(limit: nat, t: nat): seq<nat> {
    [t] + Repeat(t + RATE_WINDOW - 1, limit) + ([t + RATE_WINDOW] + Repeat(t + RATE_WINDOW, limit))
  }

  /** The last second of a window that holds one record is filled with `limit` more. */
  lemma WindowIsFilled(limit: nat, t: nat)
    ensures var times := [t] + Repeat(t + RATE_WINDOW - 1, limit);
            && After(limit, times).Some? && After(limit, times).value.started == t
            && WrittenFrom(limit, times, t + RATE_WINDOW - 1) == limit
  {
    assert [] + [t] == [t];
    OneMore(limit, [], t, t + RATE_WINDOW - 1);
    BurstIsWritten(limit, [t], After(limit, [t]).value, t + RATE_WINDOW - 1, limit, t + RATE_WINDOW - 1);
  }

  /** Once a window has run out, a burst writes `limit` records and the notice. */
  lemma NextWindowIsFilled(limit: nat, times: seq<nat>, next: nat, from: nat)
    requires After(limit, times).Some? && Expired(After(limit, times), next)
    requires from <= next < from + RATE_WINDOW
    ensures WrittenFrom(limit, times + ([next] + Repeat(next, limit)), from) == WrittenFrom(limit, times, from) + limit + 1
  {
    OneMore(limit, times, next, from);
    BurstIsWritten(limit, times + [next], After(limit, times + [next]).value, next, limit, from);
    assert times + [next] + Repeat(next, limit) == times + ([next] + Repeat(next, limit));
  }

  /** The bound is met for every limit, so no sliding window of `limit` records and a
      notice is kept. */
  lemma BoundIsMet(limit: nat, t: nat)
    ensures Monotone(Straddling(limit, t))
    ensures WrittenFrom(limit, Straddling(limit, t), t + RATE_WINDOW - 1) == 2 * limit + 1
  {
    WindowIsFilled(limit, t);
    NextWindowIsFilled(limit, [t] + Repeat(t + RATE_WINDOW - 1, limit), t + RATE_WINDOW, t + RATE_WINDOW - 1);
    StraddlingAscends(limit, t);
  }

  lemma StraddlingAscends(limit: nat, t: nat)
    ensures Monotone(Straddling(limit, t))
  {
    var times, n := Straddling(limit, t), limit + 1;
    forall i | 0 <= i < |times|
      ensures times[i] == if i == 0 then t else if i < n then t + RATE_WINDOW - 1 else t + RATE_WINDOW
    {
      if 0 < i < n { assert Repeat(t + RATE_WINDOW - 1, limit)[i - 1] in Repeat(t + RATE_WINDOW - 1, limit); }
      if n < i { assert Repeat(t + RATE_WINDOW, limit)[i - n - 1] in Repeat(t + RATE_WINDOW, limit); }
    }
  }

  // Many targets.

  function WindowsAfter(limit: nat, floor: Level, attempts: seq<Attempt>): map<string, Window> {
    if attempts == [] then map[]
    else Attempted(limit, floor, WindowsAfter(limit, floor, attempts[..|attempts| - 1]), attempts[|attempts| - 1]).0
  }

  /** The instants of one target's admitted attempts. */
  function TimesOf(floor: Level, attempts: seq<Attempt>, target: string): seq<nat> {
    if attempts == [] then []
    else
      var a := attempts[|attempts| - 1];
      TimesOf(floor, attempts[..|attempts| - 1], target) + if a.target == target && a.level <= floor then [a.now] else []
  }

  /** A target is treated as if it were alone: its window, and the outcome of its next
      record, depend on its own admitted records only. */
  lemma {:induction false} TargetsAreIndependent(limit: nat, floor: Level, attempts: seq<Attempt>, target: string)
    ensures Lookup(WindowsAfter(limit, floor, attempts), target) == After(limit, TimesOf(floor, attempts, target))
  {
    if attempts != [] {
      var init, a := attempts[..|attempts| - 1], attempts[|attempts| - 1];
      TargetsAreIndependent(limit, floor, init, target);
      var times := TimesOf(floor, init, target);
      if a.target == target && a.level <= floor {
        assert (times + [a.now])[..|times|] == times;
      } else {
        assert TimesOf(floor, attempts, target) == times;
      }
    }
  }

  lemma OutcomeOfAttempt(limit: nat, floor: Level, attempts: seq<Attempt>)
    requires attempts != [] && attempts[|attempts| - 1].level <= floor
    ensures var init, a := attempts[..|attempts| - 1], attempts[|attempts| - 1];
            Attempted(limit, floor, WindowsAfter(limit, floor, init), a).1 ==
            OutcomeOf(limit, TimesOf(floor, init, a.target) + [a.now])
  {
    var init, a := attempts[..|attempts| - 1], attempts[|attempts| - 1];
    TargetsAreIndependent(limit, floor, init, a.target);
    var times := TimesOf(floor, init, a.target);
    assert (times + [a.now])[..|times|] == times;
  }
}
