/**
 * The mailbox watcher's control loop: log in, wait in IDLE while the
 * session is younger than the renewal period and fetch new mail when the
 * server reports some, log out and log in again; back off for a minute on
 * a transport error; stop the session on an interrupt. Around it, a
 * supervisor runs the session forever, pausing ten seconds after any
 * exception that escapes it.
 *
 * The environment is a sequence of events: clock readings, the outcome of
 * each blocking call and interrupts. `Step` is the loop's behaviour as a
 * state machine; the methods below follow the nested loops of the program
 * and are proved to emit exactly the actions `Run` predicts.
 */
module Session {
  import opened Wrappers

  const RENEW_ACCOUNT_SECONDS: int := 29 * 60
  const IDLE_WAIT_SECONDS: nat := 3 * 60
  const RECONNECT_PAUSE: nat := 60
  const SUPERVISOR_PAUSE: nat := 10

  /** Where the program waits for its environment. */
  datatype State =
    | Top                    // about to read `start_time` and log in
    | LoggingIn(start: int)  // `mbox.login(...)` in progress
    | Guard(start: int)      // about to test the session's age
    | Idling(start: int)     // in `do_idle`, waiting in `idle.wait`
    | Fetching(start: int)   // in `do_idle`, fetching the unseen mails and processing each
    | LoggingOut(done: bool) // `mbox.logout()` in progress
    | Backoff(done: bool)    // `time.sleep(60)` after a transport error
    | Restart                // the supervisor's `time.sleep(10)`
    | Stopped                // the thread has ended

  datatype Event =
    | Tick(t: int)           // `time.monotonic()` returns t
    | Returned               // the blocking call (login, logout, sleep) returned
    | Responses(some: bool)  // `idle.wait` returned, with or without responses
    | NetError               // one of the listed transport and mailbox errors
    | Interrupt              // `KeyboardInterrupt`
    | Crash                  // any other exception

  datatype Action =
    | Login
    | IdleWait(timeout: nat, start: int, at: int)
    | FetchUnseen            // fetch the unseen mails and process each
    | Logout
    | Sleep(seconds: nat)
    | Return                 // the session function returned normally
    | Exit                   // the exception escaped the supervisor

  datatype Trace = Trace(state: State, actions: seq<Action>)

  /** Whether the event can happen while the program waits at `s`. */
  predicate Applies(s: State, e: Event)
  {
    match s
    case Top => e.Tick? || e.Interrupt? || e.Crash?
    case LoggingIn(_) => e.Returned? || e.NetError? || e.Interrupt? || e.Crash?
    case Guard(_) => e.Tick? || e.Interrupt? || e.Crash?
    case Idling(_) => e.Responses? || e.NetError? || e.Interrupt? || e.Crash?
    case Fetching(_) => e.Returned? || e.NetError? || e.Interrupt? || e.Crash?
    case LoggingOut(_) => e.Returned? || e.NetError? || e.Interrupt? || e.Crash?
    case Backoff(_) => e.Returned? || e.Interrupt?
    case Restart => e.Returned? || e.Interrupt?
    case Stopped => false
  }

  /**
   * One transition. `start_time` is read outside the `try`, so an
   * interrupt there escapes to the supervisor; elsewhere in the session an
   * interrupt ends it, after logging out when it came during `do_idle`.
   * Exceptions raised while sleeping after a transport error escape too.
   */
  function Step(s: State, e: Event): Trace
  {
    if !Applies(s, e) then Trace(s, [])
    else match s
      case Top => FromTop(e)
      case LoggingIn(start) => FromLogin(start, e)
      case Guard(start) => FromGuard(start, e)
      case Idling(start) => FromIdle(start, e)
      case Fetching(start) => FromFetch(start, e)
      case LoggingOut(done) => FromLogout(done, e)
      case Backoff(done) => FromBackoff(done, e)
      case Restart => FromRestart(e)
      case Stopped => Trace(s, [])
  }

  /** The unexpected exception: the supervisor's pause. */
  const Raised: Trace := Trace(Restart, [Sleep(SUPERVISOR_PAUSE)])

  function FromTop(e: Event): Trace
  {
    match e
    case Tick(t) => Trace(LoggingIn(t), [Login])
    case _ => Raised
  }

  function FromLogin(start: int, e: Event): Trace
  {
    match e
    case Returned => Trace(Guard(start), [])
    case NetError => Trace(Backoff(false), [Sleep(RECONNECT_PAUSE)])
    case Interrupt => Trace(Top, [Return])
    case _ => Raised
  }

  function FromGuard(start: int, e: Event): Trace
  {
    match e
    case Tick(t) =>
      if t - start < RENEW_ACCOUNT_SECONDS then Trace(Idling(start), [IdleWait(IDLE_WAIT_SECONDS, start, t)])
      else Trace(LoggingOut(false), [Logout])
    case Interrupt => Trace(Top, [Return])
    case _ => Raised
  }

  function FromIdle(start: int, e: Event): Trace
  {
    match e
    case Responses(some) => if some then Trace(Fetching(start), [FetchUnseen]) else Trace(Guard(start), [])
    case NetError => Trace(Backoff(false), [Sleep(RECONNECT_PAUSE)])
    case Interrupt => Trace(LoggingOut(true), [Logout])
    case _ => Raised
  }

  /** `Returned` is the end of the fetch loop; the exceptions are those of `do_idle` as a whole. */
  function FromFetch(start: int, e: Event): Trace
  {
    match e
    case Returned => Trace(Guard(start), [])
    case NetError => Trace(Backoff(false), [Sleep(RECONNECT_PAUSE)])
    case Interrupt => Trace(LoggingOut(true), [Logout])
    case _ => Raised
  }

  function FromLogout(done: bool, e: Event): Trace
  {
    match e
    case Returned => Trace(Top, if done then [Return] else [])
    case NetError => Trace(Backoff(done), [Sleep(RECONNECT_PAUSE)])
    case Interrupt => Trace(Top, [Return])
    case _ => Raised
  }

  function FromBackoff(done: bool, e: Event): Trace
  {
    match e
    case Returned => Trace(Top, if done then [Return] else [])
    case _ => Raised
  }

  function FromRestart(e: Event): Trace
  {
    match e
    case Returned => Trace(Top, [])
    case _ => Trace(Stopped, [Exit])
  }

  function Then(acts: seq<Action>, t: Trace): Trace
  {
    Trace(t.state, acts + t.actions)
  }

  /** The machine driven by a sequence of events. */
  function Run(s: State, events: seq<Event>): Trace
    decreases |events|
  {
    if events == [] then Trace(s, [])
    else Then(Step(s, events[0]).actions, Run(Step(s, events[0]).state, events[1..]))
  }

  lemma ThenThen(x: seq<Action>, y: seq<Action>, t: Trace)
    ensures Then(x, Then(y, t)) == Then(x + y, t)
  {
    assert x + (y + t.actions) == x + y + t.actions;
  }

  lemma RunFront(s: State, a: seq<Event>, b: seq<Event>)
    requires a != []
    ensures Run(s, a + b) == Then(Step(s, a[0]).actions, Run(Step(s, a[0]).state, a[1..] + b))
  {
    var ab := a + b;
    assert ab[0] == a[0] && ab[1..] == a[1..] + b;
  }

  /** Running two stretches of events one after the other. */
  lemma {:induction false} RunConcat(s: State, a: seq<Event>, b: seq<Event>)
    ensures Run(s, a + b) == Then(Run(s, a).actions, Run(Run(s, a).state, b))
    decreases |a|
  {
    if a == [] {
      assert a + b == b;
    } else {
      var st := Step(s, a[0]);
      RunFront(s, a, b);
      RunConcat(st.state, a[1..], b);
      var r := Run(st.state, a[1..]);
      ThenThen(st.actions, r.actions, Run(r.state, b));
    }
  }

  /** Once the thread has ended nothing happens any more. */
  lemma {:induction false} StoppedStays(events: seq<Event>)
    ensures Run(Stopped, events) == Trace(Stopped, [])
    decreases |events|
  {
    if events != [] {
      StoppedStays(events[1..]);
    }
  }

  /** The only way the thread ends: an interrupt during the supervisor's pause. */
  lemma StopsOnlyFromRestart(s: State, e: Event)
    requires s != Stopped && Step(s, e).state == Stopped
    ensures s == Restart && e == Interrupt
  {
  }

  /** Nothing follows `Exit`. */
  lemma {:induction false} ExitIsLast(s: State, events: seq<Event>, k: nat)
    requires k < |Run(s, events).actions| && Run(s, events).actions[k] == Exit
    ensures k == |Run(s, events).actions| - 1 && Run(s, events).state == Stopped
    decreases |events|
  {
    var st := Step(s, events[0]);
    if k < |st.actions| {
      assert st.actions == [Exit] && st.state == Stopped;
      StoppedStays(events[1..]);
    } else {
      ExitIsLast(st.state, events[1..], k - |st.actions|);
    }
  }

  // ---------------------------------------------------------------------
  // Renewal

  /** Clock readings never go backwards. */
  predicate Monotone(events: seq<Event>)
  {
    forall i, j :: 0 <= i < j < |events| && events[i].Tick? && events[j].Tick? ==> events[i].t <= events[j].t
  }

  /** Every clock reading is at least `bound`. */
  predicate NotBefore(bound: int, events: seq<Event>)
  {
    forall i :: 0 <= i < |events| && events[i].Tick? ==> bound <= events[i].t
  }

  /** The session's `start_time`, in the states that have one. */
  function StartOf(s: State): Option<int>
  {
    match s
    case LoggingIn(start) => Some(start)
    case Guard(start) => Some(start)
    case Idling(start) => Some(start)
    case Fetching(start) => Some(start)
    case _ => None
  }

  /** Every IDLE wait begins in a session younger than the renewal period, and lasts three minutes at most. */
  predicate YoungWaits(acts: seq<Action>)
  {
    forall k :: 0 <= k < |acts| && acts[k].IdleWait? ==>
      0 <= acts[k].at - acts[k].start < RENEW_ACCOUNT_SECONDS && acts[k].timeout == IDLE_WAIT_SECONDS
  }

  /**
   * With a monotonic clock, `idle.wait` is only ever entered while the
   * session is younger than `RENEW_ACCOUNT_SECONDS`: an older session is
   * logged out and renewed first.
   */
  lemma {:induction false} IdleOnlyWhileYoung(s: State, events: seq<Event>)
    requires Monotone(events)
    requires StartOf(s).Some? ==> NotBefore(StartOf(s).value, events)
    ensures YoungWaits(Run(s, events).actions)
    decreases |events|
  {
    if events != [] {
      var st := Step(s, events[0]);
      var rest := events[1..];
      assert Monotone(rest) by {
        forall i, j | 0 <= i < j < |rest| && rest[i].Tick? && rest[j].Tick?
          ensures rest[i].t <= rest[j].t
        {
          assert rest[i] == events[i + 1] && rest[j] == events[j + 1];
        }
      }
      if StartOf(st.state).Some? {
        var b := StartOf(st.state).value;
        forall i | 0 <= i < |rest| && rest[i].Tick? ensures b <= rest[i].t {
          assert rest[i] == events[i + 1];
        }
      }
      IdleOnlyWhileYoung(st.state, rest);
      var tail := Run(st.state, rest).actions;
      assert YoungWaits(st.actions);
      assert Run(s, events).actions == st.actions + tail;
    }
  }

  /** A session past the renewal period logs out and, on the next clock reading, logs in afresh. */
  lemma RenewAfterPeriod(start: int, t: int, t2: int)
    requires t - start >= RENEW_ACCOUNT_SECONDS
    ensures Run(Guard(start), [Tick(t), Returned, Tick(t2), Returned]) == Trace(Guard(t2), [Logout, Login])
  {
    var es := [Tick(t), Returned, Tick(t2), Returned];
    assert es[1..] == [Returned, Tick(t2), Returned];
    assert es[1..][1..] == [Tick(t2), Returned];
    assert es[1..][1..][1..] == [Returned];
    assert Run(LoggingIn(t2), [Returned]) == Trace(Guard(t2), []);
    assert Run(Top, [Tick(t2), Returned]) == Trace(Guard(t2), [Login]);
    assert Run(LoggingOut(false), es[1..]) == Trace(Guard(t2), [Login]);
  }

  // ---------------------------------------------------------------------
  // Backoff, interrupts and the supervisor

  /** Each login fails with a transport error and the minute's pause passes. */
  function LoginFailures(ts: seq<int>): seq<Event>
  {
    if ts == [] then [] else [Tick(ts[0]), NetError, Returned] + LoginFailures(ts[1..])
  }

  function Retries(n: nat): seq<Action>
  {
    if n == 0 then [] else [Login, Sleep(RECONNECT_PAUSE)] + Retries(n - 1)
  }

  lemma OneFailure(t: int)
    ensures Run(Top, [Tick(t), NetError, Returned]) == Trace(Top, [Login, Sleep(RECONNECT_PAUSE)])
  {
    var es := [Tick(t), NetError, Returned];
    assert es[1..] == [NetError, Returned] && es[1..][1..] == [Returned];
    assert Run(Backoff(false), [Returned]) == Trace(Top, []);
    assert Run(LoggingIn(t), [NetError, Returned]) == Trace(Top, [Sleep(RECONNECT_PAUSE)]);
  }

  /** Every failed login is followed by one sixty-second pause and a new login, without logging out. */
  lemma {:induction false} BackoffPerFailure(ts: seq<int>)
    ensures Run(Top, LoginFailures(ts)) == Trace(Top, Retries(|ts|))
    decreases |ts|
  {
    if ts != [] {
      OneFailure(ts[0]);
      RunConcat(Top, [Tick(ts[0]), NetError, Returned], LoginFailures(ts[1..]));
      BackoffPerFailure(ts[1..]);
    }
  }

  /** An interrupt during `do_idle` logs out, then the session returns (and the supervisor calls it again). */
  lemma InterruptLogsOut(start: int)
    ensures Run(Idling(start), [Interrupt, Returned]) == Trace(Top, [Logout, Return])
    ensures Run(Idling(start), [Interrupt, NetError, Returned]) == Trace(Top, [Logout, Sleep(RECONNECT_PAUSE), Return])
  {
    var a := [Interrupt, Returned];
    assert a[1..] == [Returned];
    var b := [Interrupt, NetError, Returned];
    assert b[1..] == [NetError, Returned] && b[1..][1..] == [Returned];
  }

  /** A transport error while fetching the mails backs off for a minute, as one during the wait does. */
  lemma FetchFails(start: int)
    ensures Run(Idling(start), [Responses(true), NetError, Returned]) == Trace(Top, [FetchUnseen, Sleep(RECONNECT_PAUSE)])
  {
    var es := [Responses(true), NetError, Returned];
    assert es[1..] == [NetError, Returned] && es[1..][1..] == [Returned];
    assert Run(Backoff(false), [Returned]) == Trace(Top, []);
    assert Run(Fetching(start), [NetError, Returned]) == Trace(Top, [Sleep(RECONNECT_PAUSE)]);
  }

  /** Inside the session, an exception that is neither a transport error nor an interrupt leads to a ten-second pause and a new session. */
  lemma CrashRestarts(s: State)
    requires s.Top? || s.LoggingIn? || s.Guard? || s.Idling? || s.Fetching? || s.LoggingOut?
    ensures Run(s, [Crash, Returned]) == Trace(Top, [Sleep(SUPERVISOR_PAUSE)])
  {
    var a := [Crash, Returned];
    assert a[1..] == [Returned];
  }

  // ---------------------------------------------------------------------
  // The loops of the program

  /** The machine driven by `events[lo..hi]`, built from the back: what has happened so far. */
  function Segment(s: State, events: seq<Event>, lo: nat, hi: nat): Trace
    requires lo <= hi <= |events|
    decreases hi - lo
  {
    if hi == lo then Trace(s, [])
    else
      var t := Segment(s, events, lo, hi - 1);
      var st := Step(t.state, events[hi - 1]);
      Trace(st.state, t.actions + st.actions)
  }

  /** Running `events[a..c]` is running `events[a..b]` and then `events[b..c]`. */
  lemma {:induction false} SegmentConcat(s: State, events: seq<Event>, a: nat, b: nat, c: nat)
    requires a <= b <= c <= |events|
    ensures var t := Segment(s, events, a, b);
      var u := Segment(t.state, events, b, c);
      Segment(s, events, a, c) == Trace(u.state, t.actions + u.actions)
    decreases c - b
  {
    var t := Segment(s, events, a, b);
    if c == b {
      assert Segment(t.state, events, b, c) == Trace(t.state, []);
      assert t.actions + [] == t.actions;
    } else {
      SegmentConcat(s, events, a, b, c - 1);
      var u := Segment(t.state, events, b, c - 1);
      var w := Segment(s, events, a, c - 1);
      assert w == Trace(u.state, t.actions + u.actions);
      var st := Step(u.state, events[c - 1]);
      assert Segment(t.state, events, b, c) == Trace(st.state, u.actions + st.actions);
      assert Segment(s, events, a, c) == Trace(st.state, w.actions + st.actions);
      assert t.actions + u.actions + st.actions == t.actions + (u.actions + st.actions);
    }
  }

  /** The whole of `events` seen from the back is `Run`. */
  lemma {:induction false} SegmentIsRun(s: State, events: seq<Event>, n: nat)
    requires n <= |events|
    ensures Segment(s, events, 0, n) == Run(s, events[..n])
    decreases n
  {
    if n > 0 {
      SegmentIsRun(s, events, n - 1);
      var t := Segment(s, events, 0, n - 1);
      assert events[..n] == events[..n - 1] + [events[n - 1]];
      RunConcat(s, events[..n - 1], [events[n - 1]]);
      var st := Step(t.state, events[n - 1]);
      assert [events[n - 1]][1..] == [];
      assert Run(t.state, [events[n - 1]]) == Trace(st.state, st.actions + []);
      assert st.actions + [] == st.actions;
    }
  }

  lemma {:induction false} StoppedSegment(events: seq<Event>, lo: nat, hi: nat)
    requires lo <= hi <= |events|
    ensures Segment(Stopped, events, lo, hi) == Trace(Stopped, [])
    decreases hi - lo
  {
    if hi > lo {
      StoppedSegment(events, lo, hi - 1);
    }
  }

  /** Chains what happened so far with what a called part did. */
  lemma Chain(s0: State, events: seq<Event>, a: nat, acts: seq<Action>, s1: State, b: nat,
              more: seq<Action>, tail: seq<Action>, cur: State, c: nat)
    requires a <= b <= c <= |events|
    requires Segment(s0, events, a, b) == Trace(s1, acts)
    requires Segment(s1, events, b, c) == Trace(cur, more + tail)
    ensures Segment(s0, events, a, c) == Trace(cur, acts + more + tail)
  {
    SegmentConcat(s0, events, a, b, c);
    assert acts + (more + tail) == acts + more + tail;
  }

  /**
   * The next event that can happen at `at`, skipping those that cannot;
   * `None` when the environment has nothing more to say.
   */
  method Next(events: seq<Event>, pos0: nat, at: State) returns (e: Option<Event>, pos: nat)
    requires pos0 <= |events|
    ensures pos0 <= pos <= |events|
    ensures e.Some? ==> pos0 < pos && Applies(at, e.value) && Segment(at, events, pos0, pos) == Step(at, e.value)
    ensures e.None? ==> pos == |events| && Segment(at, events, pos0, pos) == Trace(at, [])
  {
    pos := pos0;
    while pos < |events| && !Applies(at, events[pos])
      invariant pos0 <= pos <= |events|
      invariant Segment(at, events, pos0, pos) == Trace(at, [])
    {
      pos := pos + 1;
    }
    if pos == |events| {
      return None, pos;
    }
    e := Some(events[pos]);
    pos := pos + 1;
    assert [] + Step(at, e.value).actions == Step(at, e.value).actions;
  }

  /** How a part of the renewal loop handed control back. */
  datatype Flow =
    | Expired    // the renewal test failed: log out
    | Stop       // interrupt in `do_idle`: `done = True`, log out
    | Transport  // a listed error: sleep a minute
    | Break      // `except KeyboardInterrupt: break`
    | Raise      // the exception leaves the session
    | Exhausted  // no more events

  /** The call the caller makes next, once a part hands control back. */
  function Owed(f: Flow): seq<Action>
  {
    match f
    case Expired => [Logout]
    case Stop => [Logout]
    case Transport => [Sleep(RECONNECT_PAUSE)]
    case Break => [Return]
    case Raise => [Sleep(SUPERVISOR_PAUSE)]
    case Exhausted => []
  }

  /** The state the machine is in once a part hands control back with `f`. */
  predicate Lands(f: Flow, s: State)
  {
    match f
    case Expired => s == LoggingOut(false)
    case Stop => s == LoggingOut(true)
    case Transport => s == Backoff(false)
    case Break => s == Top
    case Raise => s == Restart
    case Exhausted => true
  }

  /** `for msg in mbox.fetch(...): process_email(msg)`, as seen by the session: it ends or raises. */
  method FetchMail(events: seq<Event>, pos0: nat, start: int)
    returns (pos: nat, back: bool, flow: Flow, ghost cur: State)
    requires pos0 <= |events|
    ensures pos0 <= pos <= |events| && (!back && flow.Exhausted? ==> pos == |events|)
    ensures back ==> pos0 < pos && cur == Guard(start) && Segment(Fetching(start), events, pos0, pos) == Trace(cur, [])
    ensures !back ==> Lands(flow, cur) && Segment(Fetching(start), events, pos0, pos) == Trace(cur, Owed(flow))
  {
    var r;
    r, pos := Next(events, pos0, Fetching(start));
    if r.None? {
      return pos, false, Exhausted, Fetching(start);
    }
    match r.value {
      case Returned => back, flow, cur := true, Exhausted, Guard(start);
      case NetError => back, flow, cur := false, Transport, Backoff(false);
      case Interrupt => back, flow, cur := false, Stop, LoggingOut(true);
      case Crash => back, flow, cur := false, Raise, Restart;
      case _ => assert false;
    }
  }

  /**
   * `do_idle`: one IDLE wait; when it brings responses, the unseen mails
   * are fetched and processed. `back` says it returned normally.
   */
  method DoIdle(events: seq<Event>, pos0: nat, start: int)
    returns (acts: seq<Action>, pos: nat, back: bool, flow: Flow, ghost cur: State)
    requires pos0 <= |events|
    ensures pos0 <= pos <= |events| && (!back && flow.Exhausted? ==> pos == |events|)
    ensures back ==> pos0 < pos && cur == Guard(start) && Segment(Idling(start), events, pos0, pos) == Trace(cur, acts)
    ensures !back ==> Lands(flow, cur) && Segment(Idling(start), events, pos0, pos) == Trace(cur, acts + Owed(flow))
  {
    var r;
    r, pos := Next(events, pos0, Idling(start));
    if r.None? {
      return [], pos, false, Exhausted, Idling(start);
    }
    match r.value {
      case Responses(some) =>
        if some {
          acts := [FetchUnseen];
          var mid := pos;
          assert Segment(Idling(start), events, pos0, mid) == Trace(Fetching(start), acts);
          pos, back, flow, cur := FetchMail(events, mid, start);
          if back {
            Chain(Idling(start), events, pos0, acts, Fetching(start), mid, [], [], cur, pos);
            assert acts + [] + [] == acts;
          } else {
            Chain(Idling(start), events, pos0, acts, Fetching(start), mid, [], Owed(flow), cur, pos);
            assert acts + [] == acts;
          }
        } else {
          acts, back, flow, cur := [], true, Exhausted, Guard(start);
        }
      case NetError => acts, back, flow, cur := [], false, Transport, Backoff(false);
      case Interrupt => acts, back, flow, cur := [], false, Stop, LoggingOut(true);
      case Crash => acts, back, flow, cur := [], false, Raise, Restart;
      case _ => assert false;
    }
  }

  /**
   * One pass of the renewal loop: the age test and, for a young session,
   * `do_idle`. `again` says the loop goes round once more.
   */
  method RenewalPass(events: seq<Event>, pos0: nat, start: int)
    returns (acts: seq<Action>, pos: nat, again: bool, flow: Flow, ghost cur: State)
    requires pos0 <= |events|
    ensures pos0 <= pos <= |events| && (!again && flow.Exhausted? ==> pos == |events|)
    ensures again ==> pos0 < pos && cur == Guard(start) && Segment(Guard(start), events, pos0, pos) == Trace(cur, acts)
    ensures !again ==> Lands(flow, cur) && Segment(Guard(start), events, pos0, pos) == Trace(cur, acts + Owed(flow))
  {
    var e;
    e, pos := Next(events, pos0, Guard(start));
    if e.None? {
      return [], pos, false, Exhausted, Guard(start);
    }
    match e.value {
      case Tick(t) =>
        if t - start < RENEW_ACCOUNT_SECONDS {
          acts := [IdleWait(IDLE_WAIT_SECONDS, start, t)];
          var mid := pos;
          var more;
          more, pos, again, flow, cur := DoIdle(events, pos, start);
          if again {
            assert more + [] == more;
            Chain(Guard(start), events, pos0, acts, Idling(start), mid, more, [], cur, pos);
            assert acts + more + [] == acts + more;
          } else {
            Chain(Guard(start), events, pos0, acts, Idling(start), mid, more, Owed(flow), cur, pos);
          }
          acts := acts + more;
        } else {
          acts, again, flow, cur := [], false, Expired, LoggingOut(false);
        }
      case Interrupt => acts, again, flow, cur := [], false, Break, Top;
      case Crash => acts, again, flow, cur := [], false, Raise, Restart;
      case _ => assert false;
    }
  }

  /** `while (time.monotonic() - start_time) < RENEW_ACCOUNT_SECONDS: do_idle()` */
  method RenewalLoop(events: seq<Event>, pos0: nat, start: int)
    returns (acts: seq<Action>, pos: nat, flow: Flow, ghost cur: State)
    requires pos0 <= |events|
    ensures pos0 <= pos <= |events| && (flow.Exhausted? ==> pos == |events|)
    ensures Lands(flow, cur) && Segment(Guard(start), events, pos0, pos) == Trace(cur, acts + Owed(flow))
  {
    acts, pos, cur, flow := [], pos0, Guard(start), Exhausted;
    var again := true;
    while again
      invariant pos0 <= pos <= |events| && (!again && flow.Exhausted? ==> pos == |events|)
      invariant again ==> cur == Guard(start) && Segment(Guard(start), events, pos0, pos) == Trace(cur, acts)
      invariant !again ==> Lands(flow, cur) && Segment(Guard(start), events, pos0, pos) == Trace(cur, acts + Owed(flow))
      decreases |events| - pos, again
    {
      var mid := pos;
      var more;
      more, pos, again, flow, cur := RenewalPass(events, pos, start);
      if again {
        assert more + [] == more;
        Chain(Guard(start), events, pos0, acts, Guard(start), mid, more, [], cur, pos);
        assert acts + more + [] == acts + more;
      } else {
        Chain(Guard(start), events, pos0, acts, Guard(start), mid, more, Owed(flow), cur, pos);
      }
      acts := acts + more;
    }
  }

  /** How the session function ends. */
  datatype End = Returns | Raises | RunsOut

  /**
   * The actions owed once a part of the session hands back: a normal
   * return (after `done` or a `break`), the supervisor's pause after an
   * exception, or nothing when the loop goes round again.
   */
  function Pending(done: bool, end: Option<End>): seq<Action>
  {
    match end
    case None => if done then [Return] else []
    case Some(Returns) => [Return]
    case Some(Raises) => [Sleep(SUPERVISOR_PAUSE)]
    case Some(RunsOut) => []
  }

  /** Where the machine is once a part of the session hands back. */
  predicate Rests(end: Option<End>, s: State)
  {
    match end
    case None => s == Top
    case Some(Returns) => s == Top
    case Some(Raises) => s == Restart
    case Some(RunsOut) => true
  }

  /**
   * `time.sleep(60)` in the handler of the transport errors. An interrupt
   * raised there is not caught by the sibling handler and leaves the
   * session.
   */
  method Pause(events: seq<Event>, pos0: nat, done: bool)
    returns (pos: nat, end: Option<End>, ghost cur: State)
    requires pos0 <= |events|
    ensures pos0 <= pos <= |events| && (end == Some(RunsOut) ==> pos == |events|)
    ensures Rests(end, cur) && Segment(Backoff(done), events, pos0, pos) == Trace(cur, Pending(done, end))
  {
    var e;
    e, pos := Next(events, pos0, Backoff(done));
    if e.None? {
      return pos, Some(RunsOut), Backoff(done);
    }
    match e.value {
      case Returned => end, cur := None, Top;
      case Interrupt => end, cur := Some(Raises), Restart;
      case _ => assert false;
    }
  }

  /** `mbox.logout()`, and the pause when it fails with a transport error. */
  method LogOut(events: seq<Event>, pos0: nat, done: bool)
    returns (acts: seq<Action>, pos: nat, end: Option<End>, ghost cur: State)
    requires pos0 <= |events|
    ensures pos0 <= pos <= |events| && (end == Some(RunsOut) ==> pos == |events|)
    ensures Rests(end, cur) && Segment(LoggingOut(done), events, pos0, pos) == Trace(cur, acts + Pending(done, end))
  {
    var e;
    e, pos := Next(events, pos0, LoggingOut(done));
    if e.None? {
      return [], pos, Some(RunsOut), LoggingOut(done);
    }
    match e.value {
      case Returned => acts, end, cur := [], None, Top;
      case NetError =>
        acts := [Sleep(RECONNECT_PAUSE)];
        var mid := pos;
        pos, end, cur := Pause(events, pos, done);
        Chain(LoggingOut(done), events, pos0, acts, Backoff(done), mid, [], Pending(done, end), cur, pos);
        assert acts + [] == acts;
      case Interrupt => acts, end, cur := [], Some(Returns), Top;
      case Crash => acts, end, cur := [], Some(Raises), Restart;
      case _ => assert false;
    }
  }

  /** The body of the outer `try` once logged in: the renewal loop and the logout. */
  method LoggedIn(events: seq<Event>, pos0: nat, start: int)
    returns (acts: seq<Action>, pos: nat, done: bool, end: Option<End>, ghost cur: State)
    requires pos0 <= |events|
    ensures pos0 <= pos <= |events| && (end == Some(RunsOut) ==> pos == |events|)
    ensures Rests(end, cur) && Segment(Guard(start), events, pos0, pos) == Trace(cur, acts + Pending(done, end))
  {
    var flow, mid;
    acts, mid, flow, cur := RenewalLoop(events, pos0, start);
    pos, done := mid, false;
    match flow {
      case Expired =>
        acts := acts + [Logout];
        var more;
        more, pos, end, cur := LogOut(events, mid, false);
        Chain(Guard(start), events, pos0, acts, LoggingOut(false), mid, more, Pending(false, end), cur, pos);
        acts := acts + more;
      case Stop =>
        done := true;
        acts := acts + [Logout];
        var more;
        more, pos, end, cur := LogOut(events, mid, true);
        Chain(Guard(start), events, pos0, acts, LoggingOut(true), mid, more, Pending(true, end), cur, pos);
        acts := acts + more;
      case Transport =>
        acts := acts + [Sleep(RECONNECT_PAUSE)];
        pos, end, cur := Pause(events, mid, false);
        Chain(Guard(start), events, pos0, acts, Backoff(false), mid, [], Pending(false, end), cur, pos);
        assert acts + [] == acts;
      case Break => end := Some(Returns);
      case Raise => end := Some(Raises);
      case Exhausted => end := Some(RunsOut);
    }
  }

  /**
   * One turn of `while not done`: read `start_time` (outside the `try`),
   * log in, and go on as `LoggedIn`; a failed login pauses a minute.
   */
  method SessionTurn(events: seq<Event>, pos0: nat)
    returns (acts: seq<Action>, pos: nat, done: bool, end: Option<End>, ghost cur: State)
    requires pos0 <= |events|
    ensures pos0 <= pos <= |events| && (end == Some(RunsOut) ==> pos == |events|)
    ensures end.None? ==> pos0 < pos
    ensures Rests(end, cur) && Segment(Top, events, pos0, pos) == Trace(cur, acts + Pending(done, end))
  {
    var e;
    e, pos := Next(events, pos0, Top);
    done := false;
    if e.None? {
      return [], pos, false, Some(RunsOut), Top;
    }
    if !e.value.Tick? {
      return [], pos, false, Some(Raises), Restart;
    }
    var start := e.value.t;
    acts := [Login];
    var mid := pos;
    var r;
    r, pos := Next(events, mid, LoggingIn(start));
    if r.None? {
      Chain(Top, events, pos0, acts, LoggingIn(start), mid, [], [], LoggingIn(start), pos);
      assert acts + [] + [] == acts;
      return acts, pos, false, Some(RunsOut), LoggingIn(start);
    }
    var step := Step(LoggingIn(start), r.value);
    Chain(Top, events, pos0, acts, LoggingIn(start), mid, step.actions, [], step.state, pos);
    assert step.actions + [] == step.actions;
    assert acts + step.actions + [] == acts + step.actions;
    match r.value {
      case Returned =>
        var more, mid2 := [], pos;
        more, pos, done, end, cur := LoggedIn(events, mid2, start);
        Chain(Top, events, pos0, acts, Guard(start), mid2, more, Pending(done, end), cur, pos);
        acts := acts + more;
      case NetError =>
        acts := acts + [Sleep(RECONNECT_PAUSE)];
        var mid2 := pos;
        pos, end, cur := Pause(events, mid2, false);
        Chain(Top, events, pos0, acts, Backoff(false), mid2, [], Pending(false, end), cur, pos);
        assert acts + [] == acts;
      case Interrupt => end, cur := Some(Returns), Top;
      case Crash => end, cur := Some(Raises), Restart;
      case _ => assert false;
    }
  }

  function Closing(end: End): seq<Action>
  {
    Pending(false, Some(end))
  }

  /** `wait_for_reimbursement_processed_email`: `while not done`, one `SessionTurn` at a time. */
  method WaitForEmail(events: seq<Event>, pos0: nat)
    returns (acts: seq<Action>, pos: nat, end: End, ghost cur: State)
    requires pos0 <= |events|
    ensures pos0 <= pos <= |events| && (end == RunsOut ==> pos == |events|)
    ensures end != RunsOut ==> pos0 < pos
    ensures Rests(Some(end), cur) && Segment(Top, events, pos0, pos) == Trace(cur, acts + Closing(end))
  {
    acts, pos, cur := [], pos0, Top;
    var done := false;
    var left: Option<End> := None;
    while !done && left.None?
      invariant pos0 <= pos <= |events| && (left == Some(RunsOut) ==> pos == |events|)
      invariant (done || left.Some?) && left != Some(RunsOut) ==> pos0 < pos
      invariant Rests(left, cur) && Segment(Top, events, pos0, pos) == Trace(cur, acts + Pending(done, left))
      decreases |events| - pos, !done && left.None?
    {
      var mid := pos;
      var more;
      assert acts + [] == acts;
      more, pos, done, left, cur := SessionTurn(events, mid);
      Chain(Top, events, pos0, acts, Top, mid, more, Pending(done, left), cur, pos);
      acts := acts + more;
    }
    end := if left.Some? then left.value else Returns;
  }

  /**
   * `emailing_thread`: runs the session forever; after an exception it
   * sleeps ten seconds and starts over, unless that sleep is
   * interrupted, which ends the thread. The actions are those `Run`
   * gives for the same events.
   */
  method EmailingThread(events: seq<Event>) returns (acts: seq<Action>)
    ensures acts == Run(Top, events).actions
  {
    acts := [];
    var pos := 0;
    ghost var cur := Top;
    var alive := true;
    while alive && pos < |events|
      invariant pos <= |events|
      invariant alive ==> cur == Top
      invariant !alive ==> pos == |events| || cur == Stopped
      invariant Segment(Top, events, 0, pos) == Trace(cur, acts)
      decreases |events| - pos, alive
    {
      var mid := pos;
      var more, end;
      more, pos, end, cur := WaitForEmail(events, mid);
      Chain(Top, events, 0, acts, Top, mid, more, Closing(end), cur, pos);
      acts := acts + more + Closing(end);
      match end {
        case Returns =>
        case Raises =>
          // except BaseException: time.sleep(10)
          var e, mid2 := None, pos;
          e, pos := Next(events, mid2, Restart);
          if e.None? {
            Chain(Top, events, 0, acts, Restart, mid2, [], [], Restart, pos);
            assert acts + [] + [] == acts;
            alive := false;
          } else if e.value.Interrupt? {
            assert [Exit] + [] == [Exit];
            Chain(Top, events, 0, acts, Restart, mid2, [Exit], [], Stopped, pos);
            acts, cur, alive := acts + [Exit], Stopped, false;
          } else {
            Chain(Top, events, 0, acts, Restart, mid2, [], [], Top, pos);
            assert acts + [] + [] == acts;
            cur := Top;
          }
        case RunsOut => alive := false;
      }
    }
    if pos < |events| {
      StoppedSegment(events, pos, |events|);
      SegmentConcat(Top, events, 0, pos, |events|);
      assert acts + [] == acts;
    }
    SegmentIsRun(Top, events, |events|);
    assert events[..|events|] == events;
  }
}
