/** Wallet billing: the request sessions of service/billing_session.go over the reservations of
    model/quota_reservation.go and the batch updater of model/utils.go, for one user and one API token.
    Every ledger operation runs under one lock and in one database transaction, so it is one step;
    sessions, batched updates and delayed refunds interleave in any order. Whether the database accepts
    a transaction is an input. */
module WalletBilling {
  import opened Text

  // ----- The ledger ------------------------------------------------------------------------

  /** The user's quota and the token's quotas as stored, and the updates still waiting in the batch. */
  datatype Ledger = Ledger(quota: int, remain: int, used: int, unlimited: bool, pendingUser: int, pendingToken: int)

  /** What the user really has, queued updates included. */
  function Wallet(l: Ledger): int {
    l.quota + l.pendingUser
  }

  function TokenLeft(l: Ledger): int {
    l.remain + l.pendingToken
  }

  /** The start of a reconciling transaction: the queued updates are applied. */
  function Reconciled(l: Ledger, withToken: bool): Ledger {
    var u := l.(quota := l.quota + l.pendingUser, pendingUser := 0);
    if withToken then u.(remain := u.remain + u.pendingToken, used := u.used - u.pendingToken, pendingToken := 0) else u
  }

  function Charged(l: Ledger, delta: int, withToken: bool): Ledger {
    var u := l.(quota := l.quota - delta);
    if withToken then u.(remain := u.remain - delta, used := u.used + delta) else u
  }

  datatype Verdict = Accepted | InsufficientUserQuota | InsufficientTokenQuota | NegativeQuota | DatabaseError

  /** A conditional charge; a refusal rolls the whole transaction back. */
  function ReserveWallet(l: Ledger, amount: int, withToken: bool, dbFails: bool): (r: (Ledger, Verdict)) {
    var ready := Reconciled(l, withToken);
    if amount < 0 then (l, NegativeQuota)
    else if amount == 0 then (l, Accepted)
    else if dbFails then (l, DatabaseError)
    else if ready.quota < amount then (l, InsufficientUserQuota)
    else if withToken && !l.unlimited && ready.remain < amount then (l, InsufficientTokenQuota)
    else (Charged(ready, amount, withToken), Accepted)
  }

  /** An unconditional charge, or a refund if negative. */
  function AdjustWallet(l: Ledger, delta: int, withToken: bool, dbFails: bool): (r: (Ledger, Verdict)) {
    if delta == 0 then (l, Accepted)
    else if dbFails then (l, DatabaseError)
    else (Charged(Reconciled(l, withToken), delta, withToken), Accepted)
  }

  /** The batch updater: a queue is stored, or queued again when its update fails. */
  function FlushedUser(l: Ledger, ok: bool): Ledger {
    if ok then l.(quota := l.quota + l.pendingUser, pendingUser := 0) else l
  }

  function FlushedToken(l: Ledger, ok: bool): Ledger {
    if ok then l.(remain := l.remain + l.pendingToken, used := l.used - l.pendingToken, pendingToken := 0) else l
  }

  class QuotaLedger {
    var quota: int
    var remain: int
    var used: int
    const unlimited: bool
    var pendingUser: int
    var pendingToken: int

    ghost function State(): Ledger
      reads this
    {
      Ledger(quota, remain, used, unlimited, pendingUser, pendingToken)
    }

    constructor (l: Ledger)
      ensures State() == l
    {
      quota, remain, used, unlimited := l.quota, l.remain, l.used, l.unlimited;
      pendingUser, pendingToken := l.pendingUser, l.pendingToken;
    }

    method AddUserRecord(delta: int)
      modifies this`pendingUser
      ensures State() == old(State()).(pendingUser := old(pendingUser) + delta)
    {
      pendingUser := pendingUser + delta;
    }

    method AddTokenRecord(delta: int)
      modifies this`pendingToken
      ensures State() == old(State()).(pendingToken := old(pendingToken) + delta)
    {
      pendingToken := pendingToken + delta;
    }

    method BatchUpdateUser(ok: bool)
      modifies this
      ensures State() == FlushedUser(old(State()), ok)
    {
      var value := pendingUser;
      pendingUser := 0;
      if ok {
        quota := quota + value;
      } else {
        AddUserRecord(value);
      }
    }

    method BatchUpdateToken(ok: bool)
      modifies this
      ensures State() == FlushedToken(old(State()), ok)
    {
      var value := pendingToken;
      pendingToken := 0;
      if ok {
        remain, used := remain + value, used - value;
      } else {
        AddTokenRecord(value);
      }
    }

    /** Works on a copy and stores it only if every step of the transaction succeeds. */
    method ReserveWalletQuota(amount: int, withToken: bool, dbFails: bool) returns (v: Verdict)
      modifies this
      ensures (State(), v) == ReserveWallet(old(State()), amount, withToken, dbFails)
    {
      if amount < 0 { return NegativeQuota; }
      if amount == 0 { return Accepted; }
      if dbFails { return DatabaseError; }
      var newQuota, newRemain, newUsed := quota + pendingUser, remain, used;
      if withToken { newRemain, newUsed := remain + pendingToken, used - pendingToken; }
      if newQuota < amount { return InsufficientUserQuota; }
      newQuota := newQuota - amount;
      if withToken {
        if !(unlimited || newRemain >= amount) { return InsufficientTokenQuota; }
        newRemain, newUsed := newRemain - amount, newUsed + amount;
      }
      Commit(newQuota, newRemain, newUsed, withToken);
      return Accepted;
    }

    method AdjustWalletQuota(delta: int, withToken: bool, dbFails: bool) returns (v: Verdict)
      modifies this
      ensures (State(), v) == AdjustWallet(old(State()), delta, withToken, dbFails)
    {
      if delta == 0 { return Accepted; }
      if dbFails { return DatabaseError; }
      var newQuota, newRemain, newUsed := quota + pendingUser - delta, remain, used;
      if withToken {
        newRemain, newUsed := remain + pendingToken - delta, used - pendingToken + delta;
      }
      Commit(newQuota, newRemain, newUsed, withToken);
      return Accepted;
    }

    /** The commit also drops the queued updates that were applied. */
    method Commit(newQuota: int, newRemain: int, newUsed: int, withToken: bool)
      modifies this
      ensures State() == old(State()).(quota := newQuota, remain := newRemain, used := newUsed, pendingUser := 0,
                                       pendingToken := if withToken then 0 else old(pendingToken))
    {
      quota, remain, used, pendingUser := newQuota, newRemain, newUsed, 0;
      if withToken { pendingToken := 0; }
    }
  }

  // ----- The session -------------------------------------------------------------------------

  /** A wallet-funded session. `job` is the refund handed to the worker pool and not yet run; `billed`
      and `returned` record the settlement that went through and what a refund gave back. */
  datatype Session = Session(pre: int, consumed: nat, tokenConsumed: nat, trusted: bool, withToken: bool,
                             fundingSettled: bool, settled: bool, refunded: bool,
                             job: Option<nat>, billed: Option<int>, returned: nat)

  function Fresh(withToken: bool): Session {
    Session(0, 0, 0, false, withToken, false, false, false, None, None, 0)
  }

  /** Opening a session: a trusted one reserves nothing, and neither does one asked for nothing. */
  function Opened(l: Ledger, quota: int, trusted: bool, withToken: bool, dbFails: bool): (Ledger, Option<Session>) {
    var effective := if trusted then 0 else quota;
    if effective <= 0 then (l, Some(Fresh(withToken).(pre := effective, trusted := trusted)))
    else
      var (after, v) := ReserveWallet(l, effective, withToken, dbFails);
      if !v.Accepted? then (l, None)
      else (after, Some(Fresh(withToken).(pre := effective, consumed := effective, tokenConsumed := effective)))
  }

  function Reserved(l: Ledger, s: Session, target: int, dbFails: bool): (Ledger, Session, Verdict) {
    if s.settled || s.refunded || s.trusted || target <= s.pre then (l, s, Accepted)
    else
      var delta := target - s.pre;
      var (after, v) := ReserveWallet(l, delta, s.withToken, dbFails);
      if v.Accepted?
      then
        var t := s.(pre := s.pre + delta, consumed := s.consumed + delta, tokenConsumed := s.tokenConsumed + delta);
        (after, t, v)
      else (l, s, v)
  }

  function Settled(l: Ledger, s: Session, actual: int, dbFails: bool): (Ledger, Session, Verdict) {
    var delta := actual - s.pre;
    if s.settled then (l, s, Accepted)
    else if delta == 0 then (l, s.(settled := true, billed := Some(actual)), Accepted)
    else if s.fundingSettled then (l, s.(settled := true), Accepted)
    else
      var (after, v) := AdjustWallet(l, delta, s.withToken, dbFails);
      if v.Accepted? then (after, s.(fundingSettled := true, settled := true, billed := Some(actual)), v) else (l, s, v)
  }

  predicate NeedsRefund(s: Session) {
    !s.settled && !s.refunded && !s.fundingSettled && s.tokenConsumed > 0
  }

  /** `Refund` marks the session and hands a job over; running the job is a later step. */
  function RefundCalled(s: Session): Session {
    if NeedsRefund(s) then s.(refunded := true, job := Some(s.consumed)) else s
  }

  function RefundRun(l: Ledger, s: Session, dbFails: bool): (Ledger, Session) {
    if s.job.None? then (l, s)
    else
      var (after, v) := AdjustWallet(l, 0 - s.job.value, s.withToken, dbFails);
      if v.Accepted? then (after, s.(job := None, returned := s.returned + s.job.value)) else (l, s.(job := None))
  }

  class BillingSession {
    const ledger: QuotaLedger
    const withToken: bool
    var pre: int
    var consumed: nat
    var tokenConsumed: nat
    var trusted: bool
    var fundingSettled: bool
    var settled: bool
    var refunded: bool
    var job: Option<nat>
    ghost var billed: Option<int>
    ghost var returned: nat

    ghost function State(): Session
      reads this
    {
      Session(pre, consumed, tokenConsumed, trusted, withToken,
              fundingSettled, settled, refunded, job, billed, returned)
    }

    /** A session before its quota has been reserved. */
    constructor (ledger: QuotaLedger, withToken: bool)
      ensures this.ledger == ledger && State() == Fresh(withToken)
    {
      this.ledger, this.withToken := ledger, withToken;
      pre, consumed, tokenConsumed, trusted := 0, 0, 0, false;
      fundingSettled, settled, refunded, job, billed, returned := false, false, false, None, None, 0;
    }

    method PreConsume(quota: int, shouldTrust: bool, dbFails: bool) returns (ok: bool)
      requires State() == Fresh(withToken)
      modifies this, ledger
      ensures ledger.State() == Opened(old(ledger.State()), quota, shouldTrust, withToken, dbFails).0
      ensures Opened(old(ledger.State()), quota, shouldTrust, withToken, dbFails).1
              == if ok then Some(State()) else None
    {
      var effective := quota;
      if shouldTrust {
        trusted := true;
        effective := 0;
      }
      if effective > 0 {
        var v := ledger.ReserveWalletQuota(effective, withToken, dbFails);
        if !v.Accepted? { return false; }
        consumed := consumed + effective;
        tokenConsumed := effective;
      }
      pre := effective;
      return true;
    }

    method Reserve(target: int, dbFails: bool) returns (v: Verdict)
      modifies this, ledger
      ensures (ledger.State(), State(), v) == Reserved(old(ledger.State()), old(State()), target, dbFails)
    {
      if settled || refunded || trusted || target <= pre { return Accepted; }
      var delta := target - pre;
      v := ledger.ReserveWalletQuota(delta, withToken, dbFails);
      if !v.Accepted? { return; }
      consumed := consumed + delta;
      pre := pre + delta;
      tokenConsumed := tokenConsumed + delta;
    }

    method Settle(actual: int, dbFails: bool) returns (v: Verdict)
      modifies this, ledger
      ensures (ledger.State(), State(), v) == Settled(old(ledger.State()), old(State()), actual, dbFails)
    {
      if settled { return Accepted; }
      var delta := actual - pre;
      if delta == 0 {
        settled, billed := true, Some(actual);
        return Accepted;
      }
      if !fundingSettled {
        v := ledger.AdjustWalletQuota(delta, withToken, dbFails);
        if !v.Accepted? { return; }
        fundingSettled, billed := true, Some(actual);
      }
      settled := true;
      return Accepted;
    }

    method Refund()
      modifies this
      ensures State() == RefundCalled(old(State()))
    {
      if settled || refunded || fundingSettled || tokenConsumed == 0 { return; }
      refunded := true;
      job := Some(consumed);
    }

    method RunRefundJob(dbFails: bool)
      modifies this, ledger
      ensures (ledger.State(), State()) == RefundRun(old(ledger.State()), old(State()), dbFails)
    {
      if job.None? { return; }
      var amount: nat := job.value;
      job := None;
      var v := ledger.AdjustWalletQuota(0 - amount, withToken, dbFails);
      if v.Accepted? { returned := returned + amount; }
    }
  }

  // ----- Runs --------------------------------------------------------------------------------

  datatype System = System(ledger: Ledger, sessions: seq<Session>)

  datatype Move =
    | Open(quota: int, trusted: bool, withToken: bool, dbFails: bool)
    | Reserve(i: nat, target: int, dbFails: bool)
    | Settle(i: nat, actual: int, dbFails: bool)
    | Refund(i: nat)
    | RefundJob(i: nat, dbFails: bool)
    | QueueUser(delta: int)
    | QueueToken(delta: int)
    | FlushUser(ok: bool)
    | FlushToken(ok: bool)

  /** The move is one of a session that exists. */
  predicate Addresses(m: Move, n: nat) {
    (m.Reserve? || m.Settle? || m.Refund? || m.RefundJob?) && m.i < n
  }

  function SessionMove(l: Ledger, s: Session, m: Move): (Ledger, Session) {
    match m
    case Reserve(_, target, dbFails) => var (after, t, _) := Reserved(l, s, target, dbFails); (after, t)
    case Settle(_, actual, dbFails) => var (after, t, _) := Settled(l, s, actual, dbFails); (after, t)
    case Refund(_) => (l, RefundCalled(s))
    case RefundJob(_, dbFails) => RefundRun(l, s, dbFails)
    case _ => (l, s)
  }

  function Moved(sys: System, m: Move): System {
    match m
    case Open(quota, trusted, withToken, dbFails) =>
      var (after, s) := Opened(sys.ledger, quota, trusted, withToken, dbFails);
      System(after, if s.Some? then sys.sessions + [s.value] else sys.sessions)
    case QueueUser(delta) => sys.(ledger := sys.ledger.(pendingUser := sys.ledger.pendingUser + delta))
    case QueueToken(delta) => sys.(ledger := sys.ledger.(pendingToken := sys.ledger.pendingToken + delta))
    case FlushUser(ok) => sys.(ledger := FlushedUser(sys.ledger, ok))
    case FlushToken(ok) => sys.(ledger := FlushedToken(sys.ledger, ok))
    case _ =>
      if !Addresses(m, |sys.sessions|) then sys
      else
        var (after, s) := SessionMove(sys.ledger, sys.sessions[m.i], m);
        System(after, sys.sessions[m.i := s])
  }

  function Run(start: Ledger, moves: seq<Move>): System {
    if moves == [] then System(start, [])
    else Moved(Run(start, moves[..|moves| - 1]), moves[|moves| - 1])
  }
}
