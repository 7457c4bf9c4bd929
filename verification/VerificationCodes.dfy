/** common/verification.go: the store of e-mailed verification codes. Times are nanoseconds; the clock
    is an input and never goes back. */
module VerificationCodes {
  import opened Text

  const MAX_SIZE := 10
  const VALID_SECONDS := 10 * 60
  const NANOSECONDS := 1_000_000_000

  datatype Entry = Entry(code: string, time: int)

  type Store = map<string, Entry>

  /** `int(d.Seconds())`: whole seconds, truncated towards zero. */
  function WholeSeconds(d: int): int {
    if d >= 0 then d / NANOSECONDS else -((-d) / NANOSECONDS)
  }

  predicate Expired(e: Entry, now: int) {
    WholeSeconds(now - e.time) >= VALID_SECONDS
  }

  function Purged(store: Store, now: int): Store {
    map id | id in store && !Expired(store[id], now) :: store[id]
  }

  /** Registering stores the code and, if the map has grown past its size, purges it at a second
      reading of the clock. */
  function Registered(store: Store, id: string, code: string, now: int, later: int): Store {
    var grown := store[id := Entry(code, now)];
    if |grown| > MAX_SIZE then Purged(grown, later) else grown
  }

  predicate Verifies(store: Store, id: string, code: string, now: int) {
    id in store && !Expired(store[id], now) && code == store[id].code
  }

  class VerificationMap {
    var entries: Store

    constructor ()
      ensures entries == map[]
    {
      entries := map[];
    }

    method RegisterVerificationCodeWithKey(key: string, code: string, purpose: string, now: int, later: int)
      modifies this
      ensures entries == Registered(old(entries), purpose + key, code, now, later)
    {
      entries := entries[purpose + key := Entry(code, now)];
      if |entries| > MAX_SIZE {
        RemoveExpiredPairs(later);
      }
    }

    method VerifyCodeWithKey(key: string, code: string, purpose: string, now: int) returns (ok: bool)
      ensures ok == Verifies(entries, purpose + key, code, now)
    {
      if purpose + key !in entries || WholeSeconds(now - entries[purpose + key].time) >= VALID_SECONDS {
        return false;
      }
      return code == entries[purpose + key].code;
    }

    method DeleteKey(key: string, purpose: string)
      modifies this
      ensures entries == old(entries) - {purpose + key}
    {
      entries := entries - {purpose + key};
    }

    /** Go visits the keys in an arbitrary order. */
    method RemoveExpiredPairs(now: int)
      modifies this
      ensures entries == Purged(old(entries), now)
    {
      var todo := entries.Keys;
      while todo != {}
        invariant todo <= entries.Keys <= old(entries).Keys
        invariant forall id :: id in entries ==> entries[id] == old(entries)[id]
        invariant forall id :: id in old(entries) && id !in todo ==>
                    (id in entries <==> !Expired(old(entries)[id], now))
        decreases todo
      {
        var id :| id in todo;
        if WholeSeconds(now - entries[id].time) >= VALID_SECONDS {
          entries := entries - {id};
        }
        todo := todo - {id};
      }
    }
  }

  /** A registration stores its code under its key, and drops another entry exactly when more than ten
      are then held and it is ten minutes old or older at the second clock reading. */
  lemma RegistrationEvictsExpired(store: Store, id: string, code: string, now: int, later: int, other: string)
    requires now <= later < now + 600 * 1_000_000_000
    ensures var r := Registered(store, id, code, now, later);
            && id in r && r[id] == Entry(code, now)
            && (other != id ==>
                  && (other in r <==> && other in store
                                      && (|store.Keys + {id}| <= 10 || later - store[other].time < 600 * 1_000_000_000))
                  && (other in r ==> r[other] == store[other]))
  {
    assert store[id := Entry(code, now)].Keys == store.Keys + {id};
  }

  // ----- Runs --------------------------------------------------------------------

  /** `later` is the second clock reading inside a registration. */
  datatype Event =
    | Register(purpose: string, key: string, code: string, now: int, later: int)
    | Delete(purpose: string, key: string, now: int)
    | Verify(purpose: string, key: string, code: string, now: int)

  function Done(e: Event): int {
    if e.Register? then e.later else e.now
  }

  predicate ClockNeverGoesBack(events: seq<Event>) {
    && (forall i :: 0 <= i < |events| ==> events[i].now <= Done(events[i]))
    && (forall i, j :: 0 <= i < j < |events| ==> Done(events[i]) <= events[j].now)
  }

  /** The store after a run. */
  function StoreAfter(events: seq<Event>): Store {
    if events == [] then map[]
    else
      var before := StoreAfter(events[..|events| - 1]);
      match events[|events| - 1]
      case Register(purpose, key, code, now, later) => Registered(before, purpose + key, code, now, later)
      case Delete(purpose, key, _) => before - {purpose + key}
      case Verify(_, _, _, _) => before
  }

  /** The registration still standing for a purpose and key: the latest register-or-delete event, if
      it is a registration. */
  function Standing(events: seq<Event>, purpose: string, key: string): Option<Entry> {
    if events == [] then None
    else
      var last := events[|events| - 1];
      if last.Verify? || last.purpose != purpose || last.key != key
      then Standing(events[..|events| - 1], purpose, key)
      else if last.Register? then Some(Entry(last.code, last.now))
      else None
  }

  /** No two (purpose, key) pairs of the run share a storage key. It is so for the two purposes in
      use, "v" and "r", and for any purposes of one length. */
  ghost predicate PurposesOfLength(events: seq<Event>, n: nat) {
    forall i :: 0 <= i < |events| ==> |events[i].purpose| == n
  }

  lemma StorageKeysDoNotCollide(p: string, k: string, p': string, k': string)
    requires |p| == |p'|
    ensures p + k == p' + k' <==> p == p' && k == k'
  {
    if p + k == p' + k' {
      assert (p + k)[..|p|] == p && (p' + k')[..|p'|] == p';
      assert (p + k)[|p|..] == k && (p' + k')[|p'|..] == k';
    }
  }

  /** The store agrees with the standing registration, except that an expired one may be gone. */
  predicate Agrees(store: Store, id: string, standing: Option<Entry>, clock: int) {
    if id in store then standing == Some(store[id])
    else standing.None? || Expired(standing.value, clock)
  }

  lemma ExpiredStaysExpired(e: Entry, now: int, later: int)
    requires now <= later && Expired(e, now)
    ensures Expired(e, later)
  {
  }

  lemma {:induction false} StoreAgrees(events: seq<Event>, n: nat, purpose: string, key: string, now: int)
    requires ClockNeverGoesBack(events) && PurposesOfLength(events, n) && |purpose| == n
    requires events != [] ==> Done(events[|events| - 1]) <= now
    ensures Agrees(StoreAfter(events), purpose + key, Standing(events, purpose, key), now)
  {
    if events != [] {
      var init, last := events[..|events| - 1], events[|events| - 1];
      assert Done(events[|events| - 1]) <= now;
      StoreAgrees(init, n, purpose, key, now);
      StorageKeysDoNotCollide(last.purpose, last.key, purpose, key);
      if last.Register? {
        var grown := StoreAfter(init)[last.purpose + last.key := Entry(last.code, last.now)];
        if purpose + key in grown && Expired(grown[purpose + key], last.later) {
          ExpiredStaysExpired(grown[purpose + key], last.later, now);
        }
      }
    }
  }

  /** WHOLE-RUN CORRECTNESS. After every run a verification succeeds if and only if the latest
      register-or-delete event for its purpose and key is a registration of that very code less than
      ten minutes old. Size-triggered eviction does not occur in the condition: it never matters. */
  lemma VerifiesIffStanding(events: seq<Event>, n: nat, purpose: string, key: string, code: string, now: int)
    requires ClockNeverGoesBack(events) && PurposesOfLength(events, n) && |purpose| == n
    requires events != [] ==> Done(events[|events| - 1]) <= now
    ensures Verifies(StoreAfter(events), purpose + key, code, now)
       <==> var s := Standing(events, purpose, key);
            s.Some? && s.value.code == code && now - s.value.time < 600 * 1_000_000_000
  {
    StoreAgrees(events, n, purpose, key, now);
    StandingIsPast(events, purpose, key, now);
  }

  lemma {:induction false} StandingIsPast(events: seq<Event>, purpose: string, key: string, now: int)
    requires ClockNeverGoesBack(events)
    requires events != [] ==> Done(events[|events| - 1]) <= now
    ensures var s := Standing(events, purpose, key); s.Some? ==> s.value.time <= now
  {
    if events != [] {
      assert events[|events| - 1].now <= now;
      StandingIsPast(events[..|events| - 1], purpose, key, now);
    }
  }

  predicate Touches(e: Event, purpose: string, key: string) {
    !e.Verify? && e.purpose == purpose && e.key == key
  }

  /** The i-th event registers e, and nothing registers or deletes that purpose and key after it. */
  predicate RegistersLast(events: seq<Event>, i: nat, purpose: string, key: string, e: Entry)
    requires i < |events|
  {
    && Touches(events[i], purpose, key) && events[i].Register? && Entry(events[i].code, events[i].now) == e
    && forall j :: i < j < |events| ==> !Touches(events[j], purpose, key)
  }

  /** The reference definition read out: a registration stands exactly when some event registers it
      and no later event registers or deletes the same purpose and key. */
  lemma {:induction false} StandingIsLatest(events: seq<Event>, purpose: string, key: string, e: Entry)
    ensures Standing(events, purpose, key) == Some(e)
       <==> exists i :: 0 <= i < |events| && RegistersLast(events, i, purpose, key, e)
  {
    if events != [] {
      var n := |events| - 1;
      var init := events[..n];
      StandingIsLatest(init, purpose, key, e);
      if Touches(events[n], purpose, key) {
        if Standing(events, purpose, key) == Some(e) { assert RegistersLast(events, n, purpose, key, e); }
      } else {
        if i :| 0 <= i < n && RegistersLast(init, i, purpose, key, e) {
          assert RegistersLast(events, i, purpose, key, e);
        }
        if i :| 0 <= i < |events| && RegistersLast(events, i, purpose, key, e) {
          assert forall j :: i < j < n ==> init[j] == events[j];
          assert RegistersLast(init, i, purpose, key, e);
        }
      }
    }
  }
}
