/** The silent-switch listener: records the switch and, only while the app is
    active, applies the idle-timer policy and publishes the switch state. */
module SilentSwitchBridge {
  import opened ActorTypes

  /** The screen must not dim while the switch is silenced or notifications
      are not authorized: an alarm could then go unheard. */
  predicate IdleTimerPolicy(silent: bool, permissions: PermissionStatus) {
    silent || permissions != Authorized
  }

  /** The values passed to setIdleTimerDisabled among the effects, in order. */
  function IdleTimerValues(effects: seq<Effect>): seq<bool>
    decreases |effects|
  {
    if effects == [] then []
    else if effects[0].SetIdleTimerDisabled? then [effects[0].disabled] + IdleTimerValues(effects[1..])
    else IdleTimerValues(effects[1..])
  }

  lemma {:induction false} IdleTimerValuesConcat(a: seq<Effect>, b: seq<Effect>)
    ensures IdleTimerValues(a + b) == IdleTimerValues(a) + IdleTimerValues(b)
    decreases |a|
  {
    if a == [] {
      assert a + b == b;
    } else {
      assert (a + b)[0] == a[0];
      assert (a + b)[1..] == a[1..] + b;
      IdleTimerValuesConcat(a[1..], b);
    }
  }

  /** Effects without an idle-timer call yield no idle-timer values. */
  lemma {:induction false} NoIdleTimerValues(effects: seq<Effect>)
    requires forall e :: e in effects ==> !e.SetIdleTimerDisabled?
    ensures IdleTimerValues(effects) == []
    decreases |effects|
  {
    if effects != [] {
      assert effects[0] in effects;
      assert forall e :: e in effects[1..] ==> e in effects;
      NoIdleTimerValues(effects[1..]);
    }
  }

  /** The switch reported `silent` while the app was in state `app`. */
  function OnSilentSwitch(s: ActorState, silent: bool, app: AppLifecycle): (r: Reaction)
    ensures !r.threw
    ensures r.state == s.(silent := silent)
    ensures app != Active ==> r.effects == []
    ensures app == Active ==>
      && |r.effects| == 2
      && r.effects[0] == SetIdleTimerDisabled(IdleTimerPolicy(silent, s.permissions))
      && r.effects[1] == Dispatch(UpdateSilentSwitchState(silent))
  {
    var recorded := s.(silent := silent);
    if app == Active then
      var publish := Dispatch(UpdateSilentSwitchState(silent));
      if silent || s.permissions != Authorized then
        Reaction(recorded, [SetIdleTimerDisabled(true), publish], false)
      else
        Reaction(recorded, [SetIdleTimerDisabled(false), publish], false)
    else
      Reaction(recorded, [], false)
  }

  /** While active, the idle-timer value applied is the policy evaluated on
      the fields after the toggle: silencing always keeps the screen on,
      unsilencing lets it dim exactly when notifications are authorized. */
  lemma IdleTimerMatchesNewState(s: ActorState, silent: bool)
    ensures var r := OnSilentSwitch(s, silent, Active);
            && SetIdleTimerDisabled(IdleTimerPolicy(r.state.silent, r.state.permissions)) in r.effects
            && (silent ==> SetIdleTimerDisabled(true) in r.effects && SetIdleTimerDisabled(false) !in r.effects)
            && (!silent ==> (SetIdleTimerDisabled(false) in r.effects <==> s.permissions == Authorized))
  {
  }

  /** The toggle never touches the permission status or the watcher. */
  lemma ToggleLeavesDeliveryModeAlone(s: ActorState, silent: bool, app: AppLifecycle)
    ensures var r := OnSilentSwitch(s, silent, app);
            && r.state.permissions == s.permissions
            && r.state.hasWatcher == s.hasWatcher
            && CreateWatcher !in r.effects
            && (forall b :: KillWatcher(b) !in r.effects)
  {
  }
}
