/** checkStatus: the permission refresh and the fallback-watcher decision it
    drives.  The await on the native checkPermissions call is abstracted into
    its outcome, given as an input. */
module DeliveryMode {
  import opened ActorTypes

  /** How the await on the native checkPermissions call ended. */
  datatype CheckOutcome = Resolved(status: PermissionStatus) | Rejected

  /** Alarms cannot be left to notifications, so the time watcher must run. */
  predicate FallbackRequired(status: PermissionStatus) {
    status != Authorized
  }

  /** Replays the watcher lifecycle over an effect list, starting with or
      without a live watcher: None as soon as a watcher is created while one
      is alive or killed while none is, otherwise whether one is alive at the
      end. */
  function ReplayWatcher(alive: bool, effects: seq<Effect>): Option<bool>
    decreases |effects|
  {
    if effects == [] then Some(alive)
    else match effects[0]
      case CreateWatcher => if alive then None else ReplayWatcher(true, effects[1..])
      case KillWatcher(_) => if alive then ReplayWatcher(false, effects[1..]) else None
      case _ => ReplayWatcher(alive, effects[1..])
  }

  /** The number of watchers alive after the effects: those alive before, plus
      those created, minus those killed. */
  function LiveWatchers(alive: bool, effects: seq<Effect>): int
  {
    var m := multiset(effects);
    (if alive then 1 else 0) + m[CreateWatcher] as int - m[KillWatcher(true)] as int - m[KillWatcher(false)] as int
  }

  /** Replaying a concatenation replays the first part, then the second from
      where the first left off. */
  lemma {:induction false} ReplayConcat(alive: bool, a: seq<Effect>, b: seq<Effect>)
    ensures ReplayWatcher(alive, a + b) ==
            (match ReplayWatcher(alive, a)
             case None => None
             case Some(mid) => ReplayWatcher(mid, b))
    decreases |a|
  {
    if a == [] {
      assert a + b == b;
    } else {
      assert (a + b)[0] == a[0];
      assert (a + b)[1..] == a[1..] + b;
      match a[0]
      case CreateWatcher =>
        if !alive { ReplayConcat(true, a[1..], b); }
      case KillWatcher(_) =>
        if alive { ReplayConcat(false, a[1..], b); }
      case _ =>
        ReplayConcat(alive, a[1..], b);
    }
  }

  /** The watcher creations and kills among the effects, in order. */
  function WatcherCalls(effects: seq<Effect>): seq<Effect>
    decreases |effects|
  {
    if effects == [] then []
    else if effects[0].CreateWatcher? || effects[0].KillWatcher? then [effects[0]] + WatcherCalls(effects[1..])
    else WatcherCalls(effects[1..])
  }

  lemma {:induction false} WatcherCallsConcat(a: seq<Effect>, b: seq<Effect>)
    ensures WatcherCalls(a + b) == WatcherCalls(a) + WatcherCalls(b)
    decreases |a|
  {
    if a == [] {
      assert a + b == b;
    } else {
      assert (a + b)[0] == a[0];
      assert (a + b)[1..] == a[1..] + b;
      WatcherCallsConcat(a[1..], b);
    }
  }

  /** A watcher effect occurs among the effects exactly as often as among
      their watcher calls. */
  lemma {:induction false} WatcherCallsCount(effects: seq<Effect>, x: Effect)
    requires x.CreateWatcher? || x.KillWatcher?
    ensures multiset(effects)[x] == multiset(WatcherCalls(effects))[x]
    decreases |effects|
  {
    if effects != [] {
      assert effects == [effects[0]] + effects[1..];
      WatcherCallsCount(effects[1..], x);
    }
  }

  /** Effects that neither create nor kill a watcher leave it as it was. */
  lemma {:induction false} WithoutWatcherEffects(alive: bool, effects: seq<Effect>)
    requires forall e :: e in effects ==> !e.CreateWatcher? && !e.KillWatcher?
    ensures ReplayWatcher(alive, effects) == Some(alive)
    ensures WatcherCalls(effects) == []
    decreases |effects|
  {
    if effects != [] {
      assert effects[0] in effects;
      assert forall e :: e in effects[1..] ==> e in effects;
      WithoutWatcherEffects(alive, effects[1..]);
    }
  }

  /** Whether a watcher is alive after one effect, when the effect replays. */
  function AliveAfter(alive: bool, e: Effect): bool {
    match e
    case CreateWatcher => true
    case KillWatcher(_) => false
    case _ => alive
  }

  /** One sound step of the ledger moves its first effect into the count of
      watchers alive before the rest. */
  lemma LiveWatchersStep(alive: bool, e: Effect, rest: seq<Effect>)
    requires e.CreateWatcher? ==> !alive
    requires e.KillWatcher? ==> alive
    ensures LiveWatchers(alive, [e] + rest) == LiveWatchers(AliveAfter(alive, e), rest)
  {
    assert multiset([e] + rest) == multiset{e} + multiset(rest);
  }

  /** A lifecycle that replays without a double creation or a double kill
      never has more than one watcher alive, after any prefix, and ends with
      exactly as many alive as the replay says. */
  lemma {:induction false} ReplayBoundsLiveWatchers(alive: bool, effects: seq<Effect>)
    requires ReplayWatcher(alive, effects).Some?
    ensures forall k :: 0 <= k <= |effects| ==> 0 <= LiveWatchers(alive, effects[..k]) <= 1
    ensures LiveWatchers(alive, effects) == if ReplayWatcher(alive, effects).value then 1 else 0
    decreases |effects|
  {
    if effects == [] {
      assert effects[..0] == [];
    } else {
      var e, rest := effects[0], effects[1..];
      var next := AliveAfter(alive, e);
      assert ReplayWatcher(alive, effects) == ReplayWatcher(next, rest);
      ReplayBoundsLiveWatchers(next, rest);
      forall k | 0 <= k <= |effects|
        ensures 0 <= LiveWatchers(alive, effects[..k]) <= 1
      {
        if k == 0 {
          assert effects[..k] == [];
        } else {
          assert effects[..k] == [e] + rest[..k - 1];
          LiveWatchersStep(alive, e, rest[..k - 1]);
        }
      }
      assert effects == [e] + rest;
      LiveWatchersStep(alive, e, rest);
    }
  }

  /** Two lifecycles that replay soundly one after the other replay soundly
      together, and keep at most one watcher alive throughout. */
  lemma ReplaySequence(alive: bool, a: seq<Effect>, b: seq<Effect>, mid: bool, last: bool)
    requires ReplayWatcher(alive, a) == Some(mid)
    requires ReplayWatcher(mid, b) == Some(last)
    ensures ReplayWatcher(alive, a + b) == Some(last)
    ensures forall k :: 0 <= k <= |a + b| ==> 0 <= LiveWatchers(alive, (a + b)[..k]) <= 1
    ensures LiveWatchers(alive, a + b) == if last then 1 else 0
  {
    ReplayConcat(alive, a, b);
    ReplayBoundsLiveWatchers(alive, a + b);
  }

  /** The watcher calls a successful check makes before dispatching the
      status: it creates a watcher when notifications are not authorized and
      none exists, and kills the live one, with the current switch state,
      when they are.  Replaying them leaves a watcher alive exactly when the
      fallback is required. */
  function WatcherDecision(s: ActorState, status: PermissionStatus): (calls: seq<Effect>)
    ensures calls == [] || calls == [CreateWatcher] || calls == [KillWatcher(s.silent)]
    ensures calls == [CreateWatcher] <==> FallbackRequired(status) && !s.hasWatcher
    ensures calls == [KillWatcher(s.silent)] <==> !FallbackRequired(status) && s.hasWatcher
    ensures ReplayWatcher(s.hasWatcher, calls) == Some(FallbackRequired(status))
    ensures WatcherCalls(calls) == calls
  {
    if status != Authorized then
      if !s.hasWatcher then [CreateWatcher] else []
    else if s.hasWatcher then [KillWatcher(s.silent)]
    else []
  }

  /** checkStatus resolved with the given outcome.  On success the status is
      stored, the watcher is created when notifications are not authorized and
      none exists, or killed (with the current silent flag) and cleared when
      they are authorized and one exists; then the status is dispatched.  A
      rejection is caught and logged, so the call itself never rejects. */
  function CheckStatus(s: ActorState, outcome: CheckOutcome): (r: Reaction)
    ensures !r.threw
    ensures outcome.Rejected? ==> r.state == s && r.effects == []
    ensures outcome.Resolved? ==>
      && r.state.permissions == outcome.status
      && r.state.silent == s.silent
      && r.state.hasWatcher == FallbackRequired(outcome.status)
      && Dispatched(r.effects) == [UpdateNotificationPermissions(outcome.status)]
      && r.effects[|r.effects| - 1] == Dispatch(UpdateNotificationPermissions(outcome.status))
    ensures ReplayWatcher(s.hasWatcher, r.effects) == Some(r.state.hasWatcher)
    ensures multiset(r.effects)[CreateWatcher] ==
            if outcome.Resolved? && FallbackRequired(outcome.status) && !s.hasWatcher then 1 else 0
    ensures multiset(r.effects)[KillWatcher(s.silent)] ==
            if outcome.Resolved? && !FallbackRequired(outcome.status) && s.hasWatcher then 1 else 0
    ensures KillWatcher(!s.silent) !in r.effects
    ensures WatcherCalls(r.effects) ==
            if outcome.Resolved? && FallbackRequired(outcome.status) && !s.hasWatcher then [CreateWatcher]
            else if outcome.Resolved? && !FallbackRequired(outcome.status) && s.hasWatcher then [KillWatcher(s.silent)]
            else []
    ensures forall b :: SetIdleTimerDisabled(b) !in r.effects
    ensures Completed !in r.effects
  {
    match outcome
    case Rejected => Reaction(s, [], false)
    case Resolved(status) =>
      var calls := WatcherDecision(s, status);
      var update := Dispatch(UpdateNotificationPermissions(status));
      var effects := calls + [update];
      ReplayConcat(s.hasWatcher, calls, [update]);
      WatcherCallsConcat(calls, [update]);
      DispatchedConcat(calls, [update]);
      assert WatcherCalls([update]) == [];
      WatcherCallsCount(effects, CreateWatcher);
      WatcherCallsCount(effects, KillWatcher(s.silent));
      WatcherCallsCount(effects, KillWatcher(!s.silent));
      Reaction(s.(permissions := status, hasWatcher := FallbackRequired(status)), effects, false)
  }

  /** Repeating a successful check with the same status touches no watcher:
      the decision is idempotent and only the status is dispatched again. */
  lemma RepeatedCheckIsIdempotent(s: ActorState, status: PermissionStatus)
    ensures var again := CheckStatus(CheckStatus(s, Resolved(status)).state, Resolved(status));
            && again.state == CheckStatus(s, Resolved(status)).state
            && again.effects == [Dispatch(UpdateNotificationPermissions(status))]
  {
  }

  /** From any fields without a watcher (the constructor's among them), a
      check that is not authorized followed by an authorized one creates
      exactly one watcher, then kills it exactly once, and leaves the fields
      as they were except for the authorized status. */
  lemma AuthorizationRoundTrip(s: ActorState, denied: PermissionStatus)
    requires !s.hasWatcher
    requires denied != Authorized
    ensures var down := CheckStatus(s, Resolved(denied));
            var up := CheckStatus(down.state, Resolved(Authorized));
            && down.effects == [CreateWatcher, Dispatch(UpdateNotificationPermissions(denied))]
            && up.effects == [KillWatcher(s.silent), Dispatch(UpdateNotificationPermissions(Authorized))]
            && up.state == s.(permissions := Authorized)
  {
    var down := CheckStatus(s, Resolved(denied));
    assert WatcherDecision(s, denied) == [CreateWatcher];
    assert WatcherDecision(down.state, Authorized) == [KillWatcher(s.silent)];
  }
}
