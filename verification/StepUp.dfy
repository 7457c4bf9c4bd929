/** The step-up verification session of controller/secure_verification.go, controller/passkey.go and
    middleware/secure_verification.go: a passkey ceremony leaves a short-lived marker, a verification
    turns it (or a 2FA code) into a grant, and checks consult the grant. */
module StepUp {
  import opened Text

  const SECURE_TIMEOUT := 300
  const READY_TIMEOUT := 60

  datatype Method = TwoFactor | Passkey

  /** The three session keys. */
  datatype Session = Session(readyAt: Option<int>, verifiedAt: Option<int>, verifiedMethod: Option<Method>)

  const FRESH := Session(None, None, None)

  function Granted(s: Session, m: Method, now: int): Session {
    Session(None, Some(now), Some(m))
  }

  predicate Expired(s: Session, now: int) {
    s.verifiedAt.None? || now - s.verifiedAt.value >= SECURE_TIMEOUT
  }

  function Cleared(s: Session): Session {
    s.(verifiedAt := None, verifiedMethod := None)
  }

  class SecureSession {
    var readyAt: Option<int>
    var verifiedAt: Option<int>
    var verifiedMethod: Option<Method>

    ghost function State(): Session
      reads this
    {
      Session(readyAt, verifiedAt, verifiedMethod)
    }

    constructor ()
      ensures State() == FRESH
    {
      readyAt, verifiedAt, verifiedMethod := None, None, None;
    }

    /** The session-writing tail of a successful passkey ceremony. */
    method PasskeyVerifyFinish(now: int)
      modifies this
      ensures State() == Session(Some(now), None, None)
    {
      readyAt := Some(now);
      verifiedAt := None;
      verifiedMethod := None;
    }

    method SetSecureVerificationSession(m: Method, now: int)
      modifies this
      ensures State() == Granted(old(State()), m, now)
    {
      readyAt := None;
      verifiedAt := Some(now);
      verifiedMethod := Some(m);
    }

    method ConsumePasskeyReady(now: int) returns (ok: bool)
      modifies this`readyAt
      ensures readyAt == None
      ensures ok <==> old(readyAt).Some? && now - old(readyAt).value < READY_TIMEOUT
    {
      if readyAt.None? { return false; }
      var at := readyAt.value;
      readyAt := None;
      return now - at < READY_TIMEOUT;
    }

    /** The 2FA branch; `accepted` is that 2FA is enabled, the code is given and it validates. */
    method UniversalVerifyTwoFactor(accepted: bool, now: int) returns (ok: bool)
      modifies this
      ensures (State(), ok) == Step(old(State()), TwoFactorVerify(accepted, now))
    {
      if !accepted { return false; }
      SetSecureVerificationSession(TwoFactor, now);
      return true;
    }

    /** The passkey branch, with its two clock readings. */
    method UniversalVerifyPasskey(hasPasskey: bool, now: int, later: int) returns (ok: bool)
      modifies this
      ensures (State(), ok) == Step(old(State()), PasskeyVerify(hasPasskey, now, later))
    {
      if !hasPasskey { return false; }
      var ready := ConsumePasskeyReady(now);
      if !ready { return false; }
      SetSecureVerificationSession(Passkey, later);
      return true;
    }

    method RequireSecureVerificationMethod(m: Method, now: int) returns (ok: bool)
      modifies this
      ensures (State(), ok) == Step(old(State()), Check(m, now))
    {
      if verifiedAt.None? || now - verifiedAt.value >= SECURE_TIMEOUT {
        verifiedAt := None;
        verifiedMethod := None;
        return false;
      }
      if verifiedMethod.None? || verifiedMethod.value != m {
        return false;
      }
      return true;
    }

    /** The middleware's check, which does not look at the method. */
    method SecureVerificationRequired(now: int) returns (ok: bool)
      modifies this
      ensures (State(), ok) == Step(old(State()), Guard(now))
    {
      if verifiedAt.None? { return false; }
      if now - verifiedAt.value >= SECURE_TIMEOUT {
        verifiedAt := None;
        verifiedMethod := None;
        return false;
      }
      return true;
    }
  }

  // ----- Runs --------------------------------------------------------------------

  datatype Event =
    | Ceremony(now: int)
    | TwoFactorVerify(accepted: bool, now: int)
    | PasskeyVerify(hasPasskey: bool, now: int, later: int)
    | Check(m: Method, now: int)
    | Guard(now: int)
    | Logout(now: int)

  function Step(s: Session, e: Event): (r: (Session, bool)) {
    match e
    case Ceremony(now) => (Session(Some(now), None, None), true)
    case TwoFactorVerify(accepted, now) => if accepted then (Granted(s, TwoFactor, now), true) else (s, false)
    case PasskeyVerify(hasPasskey, now, later) =>
      if !hasPasskey then (s, false)
      else if s.readyAt.Some? && now - s.readyAt.value < READY_TIMEOUT then (Granted(s, Passkey, later), true)
      else (s.(readyAt := None), false)
    case Check(m, now) =>
      if Expired(s, now) then (Cleared(s), false) else (s, s.verifiedMethod == Some(m))
    case Guard(now) =>
      if s.verifiedAt.None? then (s, false) else if Expired(s, now) then (Cleared(s), false) else (s, true)
    case Logout(_) => (FRESH, true)
  }

  function StateAfter(events: seq<Event>): Session {
    if events == [] then FRESH else Step(StateAfter(events[..|events| - 1]), events[|events| - 1]).0
  }

  /** The answer the i-th event of the run got. */
  predicate Succeeded(events: seq<Event>, i: nat)
    requires i < |events|
  {
    Step(StateAfter(events[..i]), events[i]).1
  }

  function Done(e: Event): int {
    if e.PasskeyVerify? then e.later else e.now
  }

  predicate ClockNeverGoesBack(events: seq<Event>) {
    && (forall i :: 0 <= i < |events| ==> events[i].now <= Done(events[i]))
    && (forall i, j :: 0 <= i < j < |events| ==> Done(events[i]) <= events[j].now)
  }

  // ----- When a check passes -------------------------------------------------------

  /** The i-th event is a successful verification by method m. */
  predicate Verifies(events: seq<Event>, i: nat, m: Method)
    requires i < |events|
  {
    && Succeeded(events, i)
    && match m case TwoFactor => events[i].TwoFactorVerify? case Passkey => events[i].PasskeyVerify?
  }

  /** The i-th event ends any earlier grant: a ceremony, a logout, or another verification. */
  predicate Supersedes(events: seq<Event>, i: nat)
    requires i < |events|
  {
    events[i].Ceremony? || events[i].Logout? || Verifies(events, i, TwoFactor) || Verifies(events, i, Passkey)
  }

  /** The j-th event is a verification by m, not superseded since. */
  ghost predicate StandingGrant(events: seq<Event>, j: nat, m: Method)
    requires j < |events|
  {
    Verifies(events, j, m) && forall k :: j < k < |events| ==> !Supersedes(events, k)
  }

  lemma SucceededInPrefix(events: seq<Event>, n: nat, i: nat)
    requires i < n <= |events|
    ensures Succeeded(events[..n], i) == Succeeded(events, i)
  {
    assert events[..n][..i] == events[..i];
  }

  /** The session carries the standing grant until it is found expired. */
  ghost predicate GrantRecorded(events: seq<Event>, s: Session, clock: int) {
    && (s.verifiedAt.Some? <==> s.verifiedMethod.Some?)
    && (s.verifiedAt.Some? ==>
          exists j :: 0 <= j < |events| && StandingGrant(events, j, s.verifiedMethod.value)
                   && Done(events[j]) == s.verifiedAt.value)
    && (s.verifiedAt.None? ==>
          forall j, m :: 0 <= j < |events| && StandingGrant(events, j, m) ==> clock - Done(events[j]) >= SECURE_TIMEOUT)
  }

  lemma StandingGrantInPrefix(events: seq<Event>, j: nat, m: Method)
    requires j < |events| - 1
    ensures StandingGrant(events, j, m) <==>
            StandingGrant(events[..|events| - 1], j, m) && !Supersedes(events, |events| - 1)
  {
    var n := |events| - 1;
    forall k | j <= k < n
      ensures Succeeded(events[..n], k) == Succeeded(events, k)
    {
      SucceededInPrefix(events, n, k);
    }
    if StandingGrant(events, j, m) {
      assert !Supersedes(events, n);
      forall k | j < k < n
        ensures !Supersedes(events[..n], k)
      {
        assert !Supersedes(events, k);
      }
    }
    if StandingGrant(events[..n], j, m) && !Supersedes(events, n) {
      forall k | j < k < |events|
        ensures !Supersedes(events, k)
      {
        if k < n { assert !Supersedes(events[..n], k); }
      }
    }
  }

  lemma {:induction false} SessionRecordsGrant(events: seq<Event>, clock: int)
    requires ClockNeverGoesBack(events)
    requires events != [] ==> Done(events[|events| - 1]) <= clock
    ensures GrantRecorded(events, StateAfter(events), clock)
  {
    if events != [] {
      var n := |events| - 1;
      var init, last := events[..n], events[n];
      assert Done(events[n]) <= clock;
      SessionRecordsGrant(init, last.now);
      forall j, m | 0 <= j < n
        ensures StandingGrant(events, j, m) <==> StandingGrant(init, j, m) && !Supersedes(events, n)
      {
        StandingGrantInPrefix(events, j, m);
      }
      GrantStep(events, clock);
    }
  }

  lemma GrantStep(events: seq<Event>, clock: int)
    requires events != [] && ClockNeverGoesBack(events) && Done(events[|events| - 1]) <= clock
    requires var n := |events| - 1; GrantRecorded(events[..n], StateAfter(events[..n]), events[n].now)
    requires var n := |events| - 1;
             forall j, m :: 0 <= j < n ==>
               (StandingGrant(events, j, m) <==> StandingGrant(events[..n], j, m) && !Supersedes(events, n))
    ensures GrantRecorded(events, StateAfter(events), clock)
  {
    var n := |events| - 1;
    var before := StateAfter(events[..n]);
    assert Succeeded(events, n) == Step(before, events[n]).1;
    if Supersedes(events, n) {
      SupersedingStep(events, before, clock);
    } else {
      OtherStep(events, before, clock);
    }
  }

  /** A ceremony or logout leaves no grant; a verification is the one standing grant. */
  lemma SupersedingStep(events: seq<Event>, before: Session, clock: int)
    requires events != [] && Supersedes(events, |events| - 1)
    requires Succeeded(events, |events| - 1) == Step(before, events[|events| - 1]).1
    ensures GrantRecorded(events, Step(before, events[|events| - 1]).0, clock)
  {
    hide Succeeded;
    var n := |events| - 1;
    forall j, m | 0 <= j < n
      ensures !StandingGrant(events, j, m)
    {
    }
    if Verifies(events, n, TwoFactor) {
      assert StandingGrant(events, n, TwoFactor);
    } else if Verifies(events, n, Passkey) {
      assert StandingGrant(events, n, Passkey);
    }
  }

  /** Any other step keeps the recorded grant, or drops it when it has expired. */
  lemma OtherStep(events: seq<Event>, before: Session, clock: int)
    requires events != [] && ClockNeverGoesBack(events) && Done(events[|events| - 1]) <= clock
    requires !Supersedes(events, |events| - 1)
    requires Succeeded(events, |events| - 1) == Step(before, events[|events| - 1]).1
    requires var n := |events| - 1; GrantRecorded(events[..n], before, events[n].now)
    requires var n := |events| - 1;
             forall j, m :: 0 <= j < n ==> (StandingGrant(events, j, m) <==> StandingGrant(events[..n], j, m))
    ensures GrantRecorded(events, Step(before, events[|events| - 1]).0, clock)
  {
    hide Succeeded;
    var n := |events| - 1;
    var after := Step(before, events[n]).0;
    assert forall m :: !StandingGrant(events, n, m);
    assert after.verifiedAt == before.verifiedAt || (after.verifiedAt.None? && Expired(before, clock));
    if before.verifiedAt.Some? {
      var j :| 0 <= j < n && StandingGrant(events[..n], j, before.verifiedMethod.value)
            && Done(events[..n][j]) == before.verifiedAt.value;
      assert StandingGrant(events, j, before.verifiedMethod.value);
      forall i, m | 0 <= i < |events| && StandingGrant(events, i, m)
        ensures i == j
      {
        OneStandingGrant(events, i, m, j, before.verifiedMethod.value);
      }
    }
  }

  lemma OneStandingGrant(events: seq<Event>, i: nat, m: Method, j: nat, m': Method)
    requires i < |events| && j < |events| && StandingGrant(events, i, m) && StandingGrant(events, j, m')
    ensures i == j && m == m'
  {
    assert Supersedes(events, i) && Supersedes(events, j);
  }

  /** WHOLE-RUN SAFETY AND COMPLETENESS. At any time after any run the check for method m passes if and
      only if a verification by m succeeded under 300 seconds ago and no ceremony, logout or other
      verification came after it. */
  lemma CheckPassesIffStandingGrant(events: seq<Event>, m: Method, now: int)
    requires ClockNeverGoesBack(events)
    requires events != [] ==> Done(events[|events| - 1]) <= now
    ensures Step(StateAfter(events), Check(m, now)).1 <==>
            exists j :: 0 <= j < |events| && StandingGrant(events, j, m) && now - Done(events[j]) < 300
  {
    SessionRecordsGrant(events, now);
    var s := StateAfter(events);
    if j :| 0 <= j < |events| && StandingGrant(events, j, m) && now - Done(events[j]) < SECURE_TIMEOUT {
      var i :| 0 <= i < |events| && StandingGrant(events, i, s.verifiedMethod.value)
            && Done(events[i]) == s.verifiedAt.value;
      OneStandingGrant(events, i, s.verifiedMethod.value, j, m);
    }
  }

  /** The middleware's check passes if and only if a verification by either method succeeded under 300
      seconds ago and nothing superseded it. */
  lemma GuardPassesIffStandingGrant(events: seq<Event>, now: int)
    requires ClockNeverGoesBack(events)
    requires events != [] ==> Done(events[|events| - 1]) <= now
    ensures Step(StateAfter(events), Guard(now)).1 <==>
            exists j, m :: 0 <= j < |events| && StandingGrant(events, j, m) && now - Done(events[j]) < 300
  {
    SessionRecordsGrant(events, now);
    var s := StateAfter(events);
    if j, m :| 0 <= j < |events| && StandingGrant(events, j, m) && now - Done(events[j]) < 300 {
      CheckPassesIffStandingGrant(events, m, now);
    }
  }

  /** A 2FA verification succeeds exactly when its code is accepted, and the grant is then by 2FA, now;
      otherwise it leaves the session alone. */
  lemma TwoFactorVerifiesIffAccepted(events: seq<Event>, accepted: bool, now: int)
    ensures Step(StateAfter(events), TwoFactorVerify(accepted, now)).1 <==> accepted
    ensures Step(StateAfter(events), TwoFactorVerify(accepted, now)).0 ==
            if accepted then Session(None, Some(now), Some(TwoFactor)) else StateAfter(events)
  {
  }

  // ----- Ceremonies are consumed ---------------------------------------------------

  /** The i-th event removes the marker a ceremony left. */
  predicate Consumes(events: seq<Event>, i: nat)
    requires i < |events|
  {
    events[i].Logout? || Verifies(events, i, TwoFactor) || (events[i].PasskeyVerify? && events[i].hasPasskey)
  }

  /** The j-th event is the latest ceremony, and nothing has consumed it. */
  ghost predicate StandingCeremony(events: seq<Event>, j: nat)
    requires j < |events|
  {
    events[j].Ceremony? && forall k :: j < k < |events| ==> !events[k].Ceremony? && !Consumes(events, k)
  }

  /** The marker is set exactly when a ceremony stands, and holds its time. */
  lemma {:induction false} MarkerIsStandingCeremony(events: seq<Event>)
    ensures StateAfter(events).readyAt.Some? ==>
            exists j :: 0 <= j < |events| && StandingCeremony(events, j)
                        && events[j].now == StateAfter(events).readyAt.value
    ensures forall j :: 0 <= j < |events| && StandingCeremony(events, j) ==>
              StateAfter(events).readyAt == Some(events[j].now)
  {
    if events != [] {
      var n := |events| - 1;
      var init := events[..n];
      MarkerIsStandingCeremony(init);
      forall k | 0 <= k < n
        ensures Consumes(init, k) == Consumes(events, k)
      {
        SucceededInPrefix(events, n, k);
      }
      forall j | 0 <= j < |events| && StandingCeremony(events, j)
        ensures StateAfter(events).readyAt == Some(events[j].now)
      {
        if j < n {
          assert StandingCeremony(init, j);
          assert !events[n].Ceremony? && !Consumes(events, n);
        }
      }
      if StateAfter(events).readyAt.Some? {
        if events[n].Ceremony? {
          assert StandingCeremony(events, n);
        } else {
          var j :| 0 <= j < n && StandingCeremony(init, j) && init[j].now == StateAfter(init).readyAt.value;
          assert !Consumes(events, n);
          forall k | j < k < |events|
            ensures !events[k].Ceremony? && !Consumes(events, k)
          {
            if k < n { assert !init[k].Ceremony? && !Consumes(init, k); }
          }
          assert StandingCeremony(events, j);
        }
      }
    }
  }

  /** A passkey verification succeeds if and only if the user has a passkey and a ceremony finished
      under 60 seconds before that nothing has consumed or replaced. */
  lemma PasskeyVerifiesIffStandingCeremony(events: seq<Event>, hasPasskey: bool, now: int, later: int)
    ensures Step(StateAfter(events), PasskeyVerify(hasPasskey, now, later)).1 <==>
            && hasPasskey
            && exists j :: 0 <= j < |events| && StandingCeremony(events, j) && now - events[j].now < 60
  {
    MarkerIsStandingCeremony(events);
  }

  /** No ceremony is counted twice: between two successful passkey verifications lies a ceremony. */
  lemma EachVerificationHasItsOwnCeremony(events: seq<Event>, i: nat, j: nat)
    requires i < j < |events| && Verifies(events, i, Passkey) && Verifies(events, j, Passkey)
    ensures exists k :: i < k < j && events[k].Ceremony? && events[j].now - events[k].now < 60
  {
    var before := events[..j];
    var e := events[j];
    PasskeyVerifiesIffStandingCeremony(before, e.hasPasskey, e.now, e.later);
    var k :| 0 <= k < j && StandingCeremony(before, k) && e.now - before[k].now < READY_TIMEOUT;
    if k <= i {
      SucceededInPrefix(events, j, i);
      assert Consumes(before, i);
    }
  }
}
