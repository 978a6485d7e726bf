/** The fixed-window limiter on login attempts. */
module RateLimiter {
  import opened Text

  const MAX_ATTEMPTS: nat := 10
  const WINDOW_SECONDS := 60
  const MAX_TRACKED := 4096

  datatype Window = Window(started: int, attempts: nat)

  datatype Limiter = Limiter(windows: map<string, Window>, budget: nat)

  // The same bucket whatever the case and the space around the address.
  function Normalise(key: string): string {
    AsciiLowercase(Trim(key))
  }

  function Retained(windows: map<string, Window>, now: int): map<string, Window> {
    map k | k in windows && now - windows[k].started < WINDOW_SECONDS :: windows[k]
  }

  function Opened(windows: map<string, Window>, k: string, now: int): Window {
    if k in windows && now - windows[k].started < WINDOW_SECONDS then windows[k] else Window(now, 0)
  }

  function Allowed(l: Limiter, key: string, now: int): (Limiter, bool) {
    var k := Normalise(key);
    var windows := if |l.windows| >= MAX_TRACKED then Retained(l.windows, now) else l.windows;
    if |windows| >= MAX_TRACKED && k !in windows then (l.(windows := windows), false)
    else
      var window := Opened(windows, k, now);
      var counted := window.(attempts := window.attempts + 1);
      (l.(windows := windows[k := counted]), counted.attempts <= l.budget)
  }

  function Forgotten(l: Limiter, key: string): Limiter {
    l.(windows := l.windows - {Normalise(key)})
  }

  class RateLimiter {
    var windows: map<string, Window>
    var budget: nat

    constructor ()
      ensures Model() == Limiter(map[], MAX_ATTEMPTS)
    {
      windows, budget := map[], MAX_ATTEMPTS;
    }

    constructor WithBudget(budget: nat)
      ensures Model() == Limiter(map[], budget)
    {
      windows, this.budget := map[], budget;
    }

    function Model(): Limiter
      reads this
    {
      Limiter(windows, budget)
    }

    method Allow(key: string, now: int) returns (allowed: bool)
      modifies this
      ensures (Model(), allowed) == Allowed(old(Model()), key, now)
    {
      var k := Normalise(key);
      if |windows| >= MAX_TRACKED {
        windows := Retained(windows, now);
      }
      if |windows| >= MAX_TRACKED && k !in windows {
        return false;
      }
      var window := if k in windows then windows[k] else Window(now, 0);
      if now - window.started >= WINDOW_SECONDS {
        window := Window(now, 0);
      }
      window := window.(attempts := window.attempts + 1);
      windows := windows[k := window];
      return window.attempts <= budget;
    }

    method Succeeded(key: string)
      modifies this
      ensures Model() == Forgotten(old(Model()), key)
    {
      windows := windows - {Normalise(key)};
    }
  }

  // ----- over every history of calls -----

  datatype Call = Attempt(key: string, now: int) | Success(key: string)

  function After(l: Limiter, call: Call): Limiter {
    match call
    case Attempt(key, now) => Allowed(l, key, now).0
    case Success(key) => Forgotten(l, key)
  }

  predicate Counted(l: Limiter, call: Call, k: string, from: int) {
    && call.Attempt? && Normalise(call.key) == k && from <= call.now < from + WINDOW_SECONDS
    && Allowed(l, call.key, call.now).1
  }

  // How many attempts on `k` are allowed in the interval of one window's length starting at `from`.
  function AllowedIn(l: Limiter, calls: seq<Call>, k: string, from: int): nat
    decreases |calls|
  {
    if calls == [] then 0
    else (if Counted(l, calls[0], k, from) then 1 else 0) + AllowedIn(After(l, calls[0]), calls[1..], k, from)
  }

  // The clock never goes back, and `k` never logs in.
  predicate Steady(calls: seq<Call>, clock: int, k: string)
    decreases |calls|
  {
    calls == []
    || match calls[0]
       case Attempt(_, now) => clock <= now && Steady(calls[1..], now, k)
       case Success(key) => Normalise(key) != k && Steady(calls[1..], clock, k)
  }

  function Min(a: nat, b: nat): nat {
    if a < b then a else b
  }

  /*
   With `last` the start of k's last window, `attempts` what it has counted,
   `clock` the last time seen and `count` the attempts allowed so far in the
   interval [from, from + WINDOW_SECONDS):
   - the window is k's entry, unless it has expired and been dropped;
   - a window that began before the interval has counted them all, and one
     that began within it shares them with at most one before.
   */
  predicate Tracks(l: Limiter, k: string, from: int, clock: int, started: bool, last: int, attempts: nat, count: nat) {
    && (k in l.windows ==> started && l.windows[k] == Window(last, attempts))
    && (started ==> last <= clock && (k !in l.windows ==> last + WINDOW_SECONDS <= clock))
    && count <= 2 * l.budget
    && (clock < from || !started || last + WINDOW_SECONDS <= from ==> count == 0)
    && (started && last < from ==> count <= Min(attempts, l.budget))
    && (started && from <= last < from + WINDOW_SECONDS ==> count <= l.budget + Min(attempts, l.budget))
  }

  lemma AttemptTracks(l: Limiter, k: string, from: int, clock: int, started: bool, last: int, attempts: nat, count: nat,
                      key: string, now: int) returns (started': bool, last': int, attempts': nat)
    requires Tracks(l, k, from, clock, started, last, attempts, count) && clock <= now
    ensures var next := After(l, Attempt(key, now));
            && next.budget == l.budget
            && Tracks(next, k, from, now, started', last', attempts',
                      count + if Counted(l, Attempt(key, now), k, from) then 1 else 0)
  {
    hide Normalise;
    var next := After(l, Attempt(key, now));
    started', last', attempts' := started, last, attempts;
    if k == Normalise(key) && k in next.windows {
      started', last', attempts' := true, next.windows[k].started, next.windows[k].attempts;
    }
  }

  lemma {:induction false} BoundFrom(l: Limiter, calls: seq<Call>, k: string, from: int, clock: int, started: bool,
                                     last: int, attempts: nat, count: nat)
    requires Tracks(l, k, from, clock, started, last, attempts, count) && Steady(calls, clock, k)
    ensures count + AllowedIn(l, calls, k, from) <= 2 * l.budget
    decreases |calls|
  {
    hide Tracks, Counted, Normalise, Allowed;
    if calls == [] {
      TracksBound(l, k, from, clock, started, last, attempts, count);
    } else {
      match calls[0] {
        case Attempt(key, now) =>
          var started', last', attempts' := AttemptTracks(l, k, from, clock, started, last, attempts, count, key, now);
          BoundFrom(After(l, calls[0]), calls[1..], k, from, now, started', last', attempts',
                    count + if Counted(l, calls[0], k, from) then 1 else 0);
        case Success(key) =>
          SuccessTracks(l, k, from, clock, started, last, attempts, count, key);
          BoundFrom(After(l, calls[0]), calls[1..], k, from, clock, started, last, attempts, count);
      }
    }
  }

  lemma TracksBound(l: Limiter, k: string, from: int, clock: int, started: bool, last: int, attempts: nat, count: nat)
    requires Tracks(l, k, from, clock, started, last, attempts, count)
    ensures count <= 2 * l.budget
  {
  }

  lemma SuccessTracks(l: Limiter, k: string, from: int, clock: int, started: bool, last: int, attempts: nat, count: nat,
                      key: string)
    requires Tracks(l, k, from, clock, started, last, attempts, count) && Normalise(key) != k
    ensures Tracks(Forgotten(l, key), k, from, clock, started, last, attempts, count)
    ensures Forgotten(l, key).budget == l.budget
    ensures !Counted(l, Success(key), k, from)
  {
    hide Normalise;
  }

  /**
   The limit. Whatever other addresses do, and however often the full map is
   swept, no interval of one window's length has more than twice the budget of
   allowed attempts on one address that never logs in.
   */
  lemma AtMostTwiceTheBudget(budget: nat, calls: seq<Call>, k: string, from: int, clock: int)
    requires Steady(calls, clock, k)
    ensures AllowedIn(Limiter(map[], budget), calls, k, from) <= 2 * budget
  {
    hide AllowedIn, Steady, Normalise;
    BoundFrom(Limiter(map[], budget), calls, k, from, clock, false, 0, 0, 0);
  }

  function AfterAll(l: Limiter, calls: seq<Call>): Limiter
    decreases |calls|
  {
    if calls == [] then l else AfterAll(After(l, calls[0]), calls[1..])
  }

  lemma {:induction false} SubsetSize(a: set<string>, b: set<string>)
    requires a <= b
    ensures |a| <= |b|
    decreases |a|
  {
    if a != {} {
      var x :| x in a;
      SubsetSize(a - {x}, b - {x});
    }
  }

  lemma CallKeepsSize(l: Limiter, call: Call)
    requires |l.windows| <= MAX_TRACKED
    ensures |After(l, call).windows| <= MAX_TRACKED
  {
    hide Normalise;
    match call {
      case Success(key) =>
        SubsetSize(Forgotten(l, key).windows.Keys, l.windows.Keys);
      case Attempt(key, now) =>
        var windows := if |l.windows| >= MAX_TRACKED then Retained(l.windows, now) else l.windows;
        SubsetSize(windows.Keys, l.windows.Keys);
        var next := Allowed(l, key, now).0.windows;
        if Normalise(key) in windows {
          assert next.Keys == windows.Keys || next == windows;
        } else {
          assert next.Keys == windows.Keys + {Normalise(key)} || next == windows;
        }
    }
  }

  /** The map never holds more than its limit, whatever is asked of it. */
  lemma {:induction false} NeverOverfull(l: Limiter, calls: seq<Call>)
    requires |l.windows| <= MAX_TRACKED
    ensures |AfterAll(l, calls).windows| <= MAX_TRACKED
    decreases |calls|
  {
    hide After;
    if calls != [] {
      CallKeepsSize(l, calls[0]);
      NeverOverfull(After(l, calls[0]), calls[1..]);
    }
  }

  // ----- after a success -----

  predicate IsAttemptOn(call: Call, k: string) {
    call.Attempt? && Normalise(call.key) == k
  }

  function AttemptsOn(calls: seq<Call>, k: string): nat
    decreases |calls|
  {
    if calls == [] then 0 else (if IsAttemptOn(calls[0], k) then 1 else 0) + AttemptsOn(calls[1..], k)
  }

  // Every attempt on `k` among these calls comes before `end`.
  predicate AttemptsEnd(calls: seq<Call>, k: string, end: int) {
    forall i :: 0 <= i < |calls| && IsAttemptOn(calls[i], k) ==> calls[i].now < end
  }

  // Every attempt on `k` among these calls is allowed.
  predicate AllAllowed(l: Limiter, calls: seq<Call>, k: string)
    decreases |calls|
  {
    calls == []
    || ((IsAttemptOn(calls[0], k) ==> Allowed(l, calls[0].key, calls[0].now).1)
        && AllAllowed(After(l, calls[0]), calls[1..], k))
  }

  // An address not tracked can be taken in: the map is not full, or not once swept.
  predicate HasRoom(l: Limiter, now: int) {
    |l.windows| < MAX_TRACKED || |Retained(l.windows, now)| < MAX_TRACKED
  }

  // While k's window is open, calls on other addresses leave it as it is.
  lemma OpenWindowStays(l: Limiter, call: Call, k: string, first: int)
    requires k in l.windows && l.windows[k].started == first && !IsAttemptOn(call, k)
    requires call.Success? ==> Normalise(call.key) != k
    requires call.Attempt? ==> call.now < first + WINDOW_SECONDS
    ensures k in After(l, call).windows && After(l, call).windows[k] == l.windows[k]
    ensures After(l, call).budget == l.budget
  {
    hide Normalise;
  }

  lemma OpenWindowCounts(l: Limiter, call: Call, k: string, first: int)
    requires k in l.windows && l.windows[k].started == first && IsAttemptOn(call, k)
    requires call.now < first + WINDOW_SECONDS
    ensures var counted := Window(first, l.windows[k].attempts + 1);
            && k in After(l, call).windows && After(l, call).windows[k] == counted && After(l, call).budget == l.budget
            && (Allowed(l, call.key, call.now).1 <==> counted.attempts <= l.budget)
  {
    hide Normalise;
  }

  // Each attempt on `k` among these calls is allowed if and only if fewer than `left` were made before it.
  predicate Admits(l: Limiter, calls: seq<Call>, k: string, left: int)
    decreases |calls|
  {
    if calls == [] then true
    else if IsAttemptOn(calls[0], k) then
      (Allowed(l, calls[0].key, calls[0].now).1 <==> left > 0) && Admits(After(l, calls[0]), calls[1..], k, left - 1)
    else Admits(After(l, calls[0]), calls[1..], k, left)
  }

  lemma {:induction false} AdmitsAll(l: Limiter, calls: seq<Call>, k: string, left: int)
    requires Admits(l, calls, k, left) && AttemptsOn(calls, k) <= left
    ensures AllAllowed(l, calls, k)
    decreases |calls|
  {
    hide IsAttemptOn, Allowed, After;
    if calls != [] {
      AdmitsAll(After(l, calls[0]), calls[1..], k, if IsAttemptOn(calls[0], k) then left - 1 else left);
    }
  }

  lemma {:induction false} OpenWindowAdmits(l: Limiter, calls: seq<Call>, k: string, first: int, used: nat, clock: int)
    requires Steady(calls, clock, k) && AttemptsEnd(calls, k, first + WINDOW_SECONDS)
    requires clock < first + WINDOW_SECONDS ==> k in l.windows && l.windows[k] == Window(first, used)
    ensures Admits(l, calls, k, l.budget - used)
    decreases |calls|
  {
    hide Normalise, After, Allowed;
    if calls != [] {
      var call, rest := calls[0], calls[1..];
      var now := if call.Attempt? then call.now else clock;
      SteadyStep(calls, clock, k);
      BudgetStays(l, call);
      forall i | 0 <= i < |rest| && IsAttemptOn(rest[i], k)
        ensures rest[i].now < first + WINDOW_SECONDS
      {
        assert rest[i] == calls[i + 1];
      }
      if now >= first + WINDOW_SECONDS {
        OpenWindowAdmits(After(l, call), rest, k, first, used, now);
      } else if IsAttemptOn(call, k) {
        OpenWindowCounts(l, call, k, first);
        OpenWindowAdmits(After(l, call), rest, k, first, used + 1, now);
      } else {
        OpenWindowStays(l, call, k, first);
        OpenWindowAdmits(After(l, call), rest, k, first, used, now);
      }
    }
  }

  lemma BudgetStays(l: Limiter, call: Call)
    ensures After(l, call).budget == l.budget
  {
    hide Normalise;
  }

  lemma SteadyStep(calls: seq<Call>, clock: int, k: string)
    requires calls != [] && Steady(calls, clock, k)
    ensures calls[0].Success? ==>
              Normalise(calls[0].key) != k && !IsAttemptOn(calls[0], k) && Steady(calls[1..], clock, k)
    ensures calls[0].Attempt? ==> clock <= calls[0].now && Steady(calls[1..], calls[0].now, k)
  {
    hide Normalise;
  }

  lemma {:induction false} UntrackedStays(l: Limiter, calls: seq<Call>, k: string)
    requires k !in l.windows && AttemptsOn(calls, k) == 0
    ensures k !in AfterAll(l, calls).windows && AfterAll(l, calls).budget == l.budget
    decreases |calls|
  {
    hide Normalise;
    if calls != [] {
      UntrackedStays(After(l, calls[0]), calls[1..], k);
    }
  }

  // A login frees the address's own place.
  lemma FreesAPlace(l: Limiter, key: string, now: int)
    ensures Normalise(key) in l.windows && |l.windows| <= MAX_TRACKED ==> HasRoom(Forgotten(l, key), now)
  {
    hide Normalise, Retained;
    assert Forgotten(l, key).windows.Keys == l.windows.Keys - {Normalise(key)};
  }

  lemma FirstAttempt(l: Limiter, key: string, now: int)
    requires Normalise(key) !in l.windows && l.budget >= 1
    ensures var (next, allowed) := Allowed(l, key, now);
            && (allowed <==> HasRoom(l, now)) && next.budget == l.budget
            && (allowed ==> Normalise(key) in next.windows && next.windows[Normalise(key)] == Window(now, 1))
  {
    hide Normalise;
    var next, k := Allowed(l, key, now).0, Normalise(key);
    assert k !in Retained(l.windows, now);
  }

  /**
   What logging in restores. Whatever others do before the address is next
   tried, that try is allowed if and only if the map then has room for it; and
   once it is, the attempts on the address within one window of the first are
   allowed up to the budget and refused beyond it, whatever others do in between.
   What other addresses have used up is as it was.
   */
  lemma SuccessRestoresBudget(l: Limiter, key: string, between: seq<Call>, now: int, calls: seq<Call>)
    requires AttemptsOn(between, Normalise(key)) == 0 && Steady(calls, now, Normalise(key)) && l.budget >= 1
    requires AttemptsEnd(calls, Normalise(key), now + WINDOW_SECONDS)
    ensures var tried := AfterAll(Forgotten(l, key), between);
            && (Allowed(tried, key, now).1 <==> HasRoom(tried, now))
            && (HasRoom(tried, now) ==> Admits(Allowed(tried, key, now).0, calls, Normalise(key), l.budget - 1))
            && (HasRoom(tried, now) && 1 + AttemptsOn(calls, Normalise(key)) <= l.budget ==>
                  AllAllowed(Allowed(tried, key, now).0, calls, Normalise(key)))
    ensures Normalise(key) in l.windows && |l.windows| <= MAX_TRACKED ==> HasRoom(Forgotten(l, key), now)
    ensures forall k :: k != Normalise(key) ==> (k in Forgotten(l, key).windows <==> k in l.windows)
    ensures forall k :: k in Forgotten(l, key).windows ==> Forgotten(l, key).windows[k] == l.windows[k]
  {
    hide Normalise, AfterAll, Allowed, Steady, AttemptsEnd, AttemptsOn, AllAllowed, Admits, HasRoom;
    FreesAPlace(l, key, now);
    UntrackedStays(Forgotten(l, key), between, Normalise(key));
    var tried := AfterAll(Forgotten(l, key), between);
    FirstAttempt(tried, key, now);
    if HasRoom(tried, now) {
      var next := Allowed(tried, key, now).0;
      OpenWindowAdmits(next, calls, Normalise(key), now, 1, now);
      if 1 + AttemptsOn(calls, Normalise(key)) <= l.budget {
        AdmitsAll(next, calls, Normalise(key), l.budget - 1);
      }
    }
  }

  // ----- after a window -----

  // A window starts at an attempt on its address.
  lemma {:induction false} StartsAtAttempt(l: Limiter, calls: seq<Call>, k: string, bound: int)
    requires k in l.windows ==> l.windows[k].started <= bound
    requires AttemptsEnd(calls, k, bound + 1)
    ensures k in AfterAll(l, calls).windows ==> AfterAll(l, calls).windows[k].started <= bound
    ensures AfterAll(l, calls).budget == l.budget
    decreases |calls|
  {
    hide Normalise;
    if calls != [] {
      forall i | 0 <= i < |calls[1..]| && IsAttemptOn(calls[1..][i], k)
        ensures calls[1..][i].now < bound + 1
      {
        assert calls[1..][i] == calls[i + 1];
      }
      StartsAtAttempt(After(l, calls[0]), calls[1..], k, bound);
    }
  }

  // Once its window has passed, an address still tracked is let in: the sweep of a full map takes its own entry too.
  lemma PassedIsLetIn(l: Limiter, key: string, now: int)
    requires |l.windows| <= MAX_TRACKED && l.budget >= 1
    requires Normalise(key) in l.windows ==> l.windows[Normalise(key)].started <= now - WINDOW_SECONDS
    ensures Allowed(l, key, now).1 <==> Normalise(key) in l.windows || HasRoom(l, now)
  {
    hide Normalise;
    var k, swept := Normalise(key), Retained(l.windows, now);
    assert k !in swept;
    if k in l.windows {
      assert swept.Keys <= l.windows.Keys - {k};
      SubsetSize(swept.Keys, l.windows.Keys - {k});
    }
  }

  /**
   A window passes. However an address used up its budget, once one window's
   length has gone by since its last attempt the next is allowed, unless the
   address is no longer tracked and the map is full of others within theirs.
   */
  lemma LetInAgain(budget: nat, calls: seq<Call>, key: string, now: int)
    requires budget >= 1 && AttemptsEnd(calls, Normalise(key), now - WINDOW_SECONDS + 1)
    ensures var l := AfterAll(Limiter(map[], budget), calls);
            Allowed(l, key, now).1 <==> Normalise(key) in l.windows || HasRoom(l, now)
  {
    hide Normalise, AfterAll, Allowed, AttemptsEnd, HasRoom;
    StartsAtAttempt(Limiter(map[], budget), calls, Normalise(key), now - WINDOW_SECONDS);
    NeverOverfull(Limiter(map[], budget), calls);
    PassedIsLetIn(AfterAll(Limiter(map[], budget), calls), key, now);
  }

  // ----- one address, one count -----

  /** However an address is capitalised and padded, it is one address to the limiter. */
  lemma OneCountAnAddress(l: Limiter, p: string, a: string, q: string, b: string, now: int)
    requires AllWhitespace(p) && AllWhitespace(q) && SameButForCase(a, b)
    ensures Allowed(l, p + a + q, now) == Allowed(l, b, now) && Forgotten(l, p + a + q) == Forgotten(l, b)
  {
    hide AllWhitespace, SameButForCase, AsciiLowercase, Trim;
    NormalForm(p, a, q, b);
  }
}
