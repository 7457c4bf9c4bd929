/** What wallet billing guarantees over every run: quota is conserved, each request pays what it should
    under an exact condition, and reservations do not overdraw. The results are about the operations of
    a session in any order. The request handlers call `Refund` only in deferred functions, after their
    last settlement. */
module WalletTheorems {
  import opened Text
  import opened WalletBilling

  // ----- What every session satisfies ----------------------------------------------------------

  predicate Consistent(s: Session) {
    && s.pre <= s.consumed == s.tokenConsumed
    && (s.trusted ==> s.pre == s.consumed == 0)
    && (s.settled <==> s.billed.Some?)
    && (s.fundingSettled ==> s.settled)
    && (s.refunded ==> s.consumed > 0)
    && (!s.refunded ==> s.job.None? && s.returned == 0)
    && (s.job.Some? ==> s.job.value == s.consumed && s.returned == 0)
    && (s.returned == 0 || s.returned == s.consumed)
  }

  /** A request opened with a negative quota reserves nothing but is settled against that quota. */
  function Shortfall(s: Session): int {
    s.consumed - s.pre
  }

  lemma SessionMoveKeepsConsistent(l: Ledger, s: Session, m: Move)
    requires Consistent(s)
    ensures var t := SessionMove(l, s, m).1; Consistent(t) && Shortfall(t) == Shortfall(s) && t.withToken == s.withToken
  {
  }

  lemma OpenedIsConsistent(l: Ledger, quota: int, trusted: bool, withToken: bool, dbFails: bool)
    ensures var s := Opened(l, quota, trusted, withToken, dbFails).1;
            && (s.Some? ==> Consistent(s.value) && s.value.withToken == withToken)
            && (s.Some? ==> Shortfall(s.value) == if trusted || quota >= 0 then 0 else -quota)
  {
  }

  ghost predicate AllConsistent(sessions: seq<Session>) {
    forall i :: 0 <= i < |sessions| ==> Consistent(sessions[i])
  }

  lemma {:induction false} SessionsAreConsistent(start: Ledger, moves: seq<Move>)
    ensures AllConsistent(Run(start, moves).sessions)
  {
    hide Consistent, SessionMove, Opened;
    if moves != [] {
      var init, m := moves[..|moves| - 1], moves[|moves| - 1];
      SessionsAreConsistent(start, init);
      var sys := Run(start, init);
      if Addresses(m, |sys.sessions|) {
        SessionMoveKeepsConsistent(sys.ledger, sys.sessions[m.i], m);
      } else if m.Open? {
        OpenedIsConsistent(sys.ledger, m.quota, m.trusted, m.withToken, m.dbFails);
      }
    }
  }

  // ----- Conservation ----------------------------------------------------------------------------

  /** What a session has cost so far. */
  function Charge(s: Session): int {
    s.consumed + (if s.billed.Some? then s.billed.value - s.pre else 0) - s.returned
  }

  function TokenShare(s: Session): int {
    if s.withToken then Charge(s) else 0
  }

  function UserCharges(sessions: seq<Session>): int {
    if sessions == [] then 0 else UserCharges(sessions[..|sessions| - 1]) + Charge(sessions[|sessions| - 1])
  }

  function TokenCharges(sessions: seq<Session>): int {
    if sessions == [] then 0 else TokenCharges(sessions[..|sessions| - 1]) + TokenShare(sessions[|sessions| - 1])
  }

  /** The sum of the updates other parts of the program have queued. */
  function QueuedUser(moves: seq<Move>): int {
    if moves == [] then 0
    else QueuedUser(moves[..|moves| - 1]) + UserDelta(moves[|moves| - 1])
  }

  function UserDelta(m: Move): int {
    if m.QueueUser? then m.delta else 0
  }

  function QueuedToken(moves: seq<Move>): int {
    if moves == [] then 0
    else QueuedToken(moves[..|moves| - 1]) + TokenDelta(moves[|moves| - 1])
  }

  function TokenDelta(m: Move): int {
    if m.QueueToken? then m.delta else 0
  }

  /** `amount` left the wallet, and the token if there is one; the token's books still balance. */
  predicate Took(l: Ledger, after: Ledger, amount: int, withToken: bool) {
    && Wallet(after) == Wallet(l) - amount
    && TokenLeft(after) == TokenLeft(l) - (if withToken then amount else 0)
    && after.remain + after.used == l.remain + l.used
    && after.unlimited == l.unlimited
  }

  /** An accepted operation takes its amount, a refused one nothing. */
  lemma LedgerTakes(l: Ledger, amount: int, withToken: bool, dbFails: bool)
    ensures var (after, v) := ReserveWallet(l, amount, withToken, dbFails);
            Took(l, after, if v.Accepted? then amount else 0, withToken)
    ensures var (after, v) := AdjustWallet(l, amount, withToken, dbFails);
            Took(l, after, if v.Accepted? then amount else 0, withToken)
  {
  }

  /** Every session step takes exactly the change of the session's charge. */
  lemma SessionMoveTakesCharge(l: Ledger, s: Session, m: Move)
    requires Consistent(s)
    ensures var (after, t) := SessionMove(l, s, m); Took(l, after, Charge(t) - Charge(s), s.withToken)
  {
    hide ReserveWallet, AdjustWallet;
    match m {
      case Reserve(_, target, dbFails) => LedgerTakes(l, target - s.pre, s.withToken, dbFails);
      case Settle(_, actual, dbFails) => LedgerTakes(l, actual - s.pre, s.withToken, dbFails);
      case RefundJob(_, dbFails) => if s.job.Some? { LedgerTakes(l, 0 - s.job.value, s.withToken, dbFails); }
      case _ =>
    }
  }

  lemma OpeningTakesCharge(l: Ledger, quota: int, trusted: bool, withToken: bool, dbFails: bool)
    ensures var (after, s) := Opened(l, quota, trusted, withToken, dbFails);
            Took(l, after, if s.Some? then Charge(s.value) else 0, withToken)
  {
    hide ReserveWallet;
    LedgerTakes(l, quota, withToken, dbFails);
  }

  lemma {:induction false} ChargesAfterChange(sessions: seq<Session>, i: nat, t: Session)
    requires i < |sessions|
    ensures UserCharges(sessions[i := t]) == UserCharges(sessions) - Charge(sessions[i]) + Charge(t)
    ensures TokenCharges(sessions[i := t]) == TokenCharges(sessions) - TokenShare(sessions[i]) + TokenShare(t)
  {
    hide Charge, TokenShare;
    var n := |sessions| - 1;
    if i < n {
      ChargesAfterChange(sessions[..n], i, t);
      assert sessions[i := t][..n] == sessions[..n][i := t];
    } else {
      assert sessions[i := t][..n] == sessions[..n];
    }
  }

  /** Wallet and token with what the sessions have cost, and the token's total. */
  function UserBooks(sys: System): int {
    Wallet(sys.ledger) + UserCharges(sys.sessions)
  }

  function TokenBooks(sys: System): int {
    TokenLeft(sys.ledger) + TokenCharges(sys.sessions)
  }

  lemma MoveKeepsBooks(sys: System, m: Move)
    requires AllConsistent(sys.sessions)
    ensures UserBooks(Moved(sys, m)) == UserBooks(sys) + UserDelta(m)
    ensures TokenBooks(Moved(sys, m)) == TokenBooks(sys) + TokenDelta(m)
    ensures Moved(sys, m).ledger.remain + Moved(sys, m).ledger.used == sys.ledger.remain + sys.ledger.used
  {
    hide SessionMove, Opened, Consistent, Charge;
    if Addresses(m, |sys.sessions|) {
      SessionMoveTakesCharge(sys.ledger, sys.sessions[m.i], m);
      SessionMoveKeepsConsistent(sys.ledger, sys.sessions[m.i], m);
      ChargesAfterChange(sys.sessions, m.i, SessionMove(sys.ledger, sys.sessions[m.i], m).1);
    } else if m.Open? {
      OpeningTakesCharge(sys.ledger, m.quota, m.trusted, m.withToken, m.dbFails);
      OpenedIsConsistent(sys.ledger, m.quota, m.trusted, m.withToken, m.dbFails);
      var s := Opened(sys.ledger, m.quota, m.trusted, m.withToken, m.dbFails).1;
      if s.Some? { assert (sys.sessions + [s.value])[..|sys.sessions|] == sys.sessions; }
    }
  }

  /** CONSERVATION. In every run, however sessions, batch updates and delayed refunds interleave and
      whatever the database refuses, the wallet with its queued updates plus the charges of all sessions
      is what it started with plus what was queued, and so is the token. */
  lemma {:induction false} QuotaIsConserved(start: Ledger, moves: seq<Move>)
    ensures var r := Run(start, moves);
            && Wallet(r.ledger) + UserCharges(r.sessions) == Wallet(start) + QueuedUser(moves)
            && TokenLeft(r.ledger) + TokenCharges(r.sessions) == TokenLeft(start) + QueuedToken(moves)
            && r.ledger.remain + r.ledger.used == start.remain + start.used
  {
    if moves != [] {
      hide Moved;
      var init := moves[..|moves| - 1];
      QuotaIsConserved(start, init);
      SessionsAreConsistent(start, init);
      MoveKeepsBooks(Run(start, init), moves[|moves| - 1]);
    }
  }

  // ----- What one request pays ------------------------------------------------------------------

  /** The move opens the i-th session or is one of its steps. */
  predicate Concerns(sys: System, m: Move, i: nat) {
    if m.Open? then i == |sys.sessions| else Addresses(m, |sys.sessions|) && m.i == i
  }

  /** What the i-th session has taken from the wallet, added up from the ledger move by move. */
  function Paid(start: Ledger, moves: seq<Move>, i: nat): int {
    if moves == [] then 0
    else
      var init, m := moves[..|moves| - 1], moves[|moves| - 1];
      var before := Run(start, init);
      var taken := Wallet(before.ledger) - Wallet(Moved(before, m).ledger);
      Paid(start, init, i) + if Concerns(before, m, i) then taken else 0
  }

  /** A move leaves a session alone or takes it one step on. */
  lemma NextSession(sys: System, m: Move, i: nat)
    requires i < |sys.sessions|
    ensures |sys.sessions| <= |Moved(sys, m).sessions|
    ensures Moved(sys, m).sessions[i] ==
            if Concerns(sys, m, i) then SessionMove(sys.ledger, sys.sessions[i], m).1 else sys.sessions[i]
  {
    hide SessionMove, Opened;
  }

  lemma SessionsGrow(sys: System, m: Move)
    ensures |sys.sessions| <= |Moved(sys, m).sessions| <= |sys.sessions| + 1
    ensures |Moved(sys, m).sessions| > |sys.sessions| <==>
            m.Open? && Opened(sys.ledger, m.quota, m.trusted, m.withToken, m.dbFails).1.Some?
  {
    hide SessionMove, Opened;
  }

  /** The payments read off the ledger are the session's charge. */
  lemma {:induction false} PaidIsCharge(start: Ledger, moves: seq<Move>, i: nat)
    ensures var sessions := Run(start, moves).sessions;
            Paid(start, moves, i) == if i < |sessions| then Charge(sessions[i]) else 0
  {
    hide SessionMove, Opened, Consistent, Charge, Moved;
    if moves != [] {
      var init, m := moves[..|moves| - 1], moves[|moves| - 1];
      PaidIsCharge(start, init, i);
      SessionsAreConsistent(start, init);
      PaymentStep(Run(start, init), m, i);
    }
  }

  lemma PaymentStep(sys: System, m: Move, i: nat)
    requires AllConsistent(sys.sessions)
    ensures var r := Moved(sys, m);
            var now := if i < |r.sessions| then Charge(r.sessions[i]) else 0;
            var was := if i < |sys.sessions| then Charge(sys.sessions[i]) else 0;
            now - was == if Concerns(sys, m, i) then Wallet(sys.ledger) - Wallet(r.ledger) else 0
  {
    hide SessionMove, Opened, Consistent, Charge;
    if Addresses(m, |sys.sessions|) {
      SessionMoveTakesCharge(sys.ledger, sys.sessions[m.i], m);
    } else if m.Open? {
      OpeningTakesCharge(sys.ledger, m.quota, m.trusted, m.withToken, m.dbFails);
    }
  }

  /** Move o opens the i-th session. */
  predicate OpensAt(start: Ledger, moves: seq<Move>, i: nat, o: nat) {
    && o < |moves| && moves[o].Open?
    && var before := Run(start, moves[..o]);
       && |before.sessions| == i
       && Opened(before.ledger, moves[o].quota, moves[o].trusted, moves[o].withToken, moves[o].dbFails).1.Some?
  }

  /** Move p is the settlement of the i-th session that goes through. */
  predicate SettlesAt(start: Ledger, moves: seq<Move>, i: nat, p: nat) {
    && p < |moves| && moves[p].Settle? && moves[p].i == i
    && var before := Run(start, moves[..p]);
       && i < |before.sessions| && !before.sessions[i].settled
       && Settled(before.ledger, before.sessions[i], moves[p].actual, moves[p].dbFails).2.Accepted?
  }

  /** At move q the database refuses the refund job of the i-th session. */
  predicate RefusedAt(start: Ledger, moves: seq<Move>, i: nat, q: nat) {
    && q < |moves| && moves[q] == RefundJob(i, true)
    && var before := Run(start, moves[..q]);
       i < |before.sessions| && before.sessions[i].job.Some?
  }

  ghost predicate RefundRefused(start: Ledger, moves: seq<Move>, i: nat) {
    exists q :: RefusedAt(start, moves, i, q)
  }

  /** What the opening quota adds to every later settlement. */
  function Surcharge(open: Move): int
    requires open.Open?
  {
    if open.trusted || open.quota >= 0 then 0 else -open.quota
  }

  lemma {:induction false} OpeningStands(start: Ledger, moves: seq<Move>, i: nat, o: nat)
    requires OpensAt(start, moves, i, o)
    ensures i < |Run(start, moves).sessions| && Shortfall(Run(start, moves).sessions[i]) == Surcharge(moves[o])
  {
    hide SessionMove, Opened, Consistent, Shortfall, Moved;
    var init, m := moves[..|moves| - 1], moves[|moves| - 1];
    var sys := Run(start, init);
    SessionsAreConsistent(start, init);
    if o == |moves| - 1 {
      OpenedIsLast(sys, m);
      OpenedIsConsistent(sys.ledger, m.quota, m.trusted, m.withToken, m.dbFails);
    } else {
      assert moves[..o] == init[..o];
      OpeningStands(start, init, i, o);
      NextSession(sys, m, i);
      SessionMoveKeepsConsistent(sys.ledger, sys.sessions[i], m);
    }
  }

  lemma OpenedIsLast(sys: System, m: Move)
    requires m.Open? && Opened(sys.ledger, m.quota, m.trusted, m.withToken, m.dbFails).1.Some?
    ensures Moved(sys, m).sessions
            == sys.sessions + [Opened(sys.ledger, m.quota, m.trusted, m.withToken, m.dbFails).1.value]
  {
  }

  /** Once settled, a session moves only when a refund job handed over before is run, and then only the
      outcome of that job changes. */
  lemma SettledStaysSettled(l: Ledger, s: Session, m: Move)
    requires Consistent(s) && s.settled
    ensures SessionMove(l, s, m) != (l, s) ==> m.RefundJob? && s.job.Some?
    ensures var t := SessionMove(l, s, m).1;
            t.settled && t.billed == s.billed && t.refunded == s.refunded && t.consumed == s.consumed
  {
  }

  lemma SettlingStep(l: Ledger, s: Session, m: Move)
    requires Consistent(s) && !s.settled && m.Settle? && Settled(l, s, m.actual, m.dbFails).2.Accepted?
    ensures var t := SessionMove(l, s, m).1;
            t.settled && t.billed == Some(m.actual) && t.refunded == s.refunded && t.consumed == s.consumed
  {
  }

  lemma {:induction false} SettlementStands(start: Ledger, moves: seq<Move>, i: nat, p: nat)
    requires SettlesAt(start, moves, i, p)
    ensures i < |Run(start, moves).sessions|
    ensures var s, found := Run(start, moves).sessions[i], Run(start, moves[..p]).sessions[i];
            && s.settled && s.billed == Some(moves[p].actual)
            && s.refunded == found.refunded && s.consumed == found.consumed
  {
    hide SessionMove, Settled, Consistent, Moved;
    var init, m := moves[..|moves| - 1], moves[|moves| - 1];
    var sys := Run(start, init);
    SessionsAreConsistent(start, init);
    if p == |moves| - 1 {
      NextSession(sys, m, i);
      SettlingStep(sys.ledger, sys.sessions[i], m);
    } else {
      assert moves[..p] == init[..p];
      SettlementStands(start, init, i, p);
      NextSession(sys, m, i);
      SettledStaysSettled(sys.ledger, sys.sessions[i], m);
    }
  }

  lemma {:induction false} EarlierSessionsExist(start: Ledger, moves: seq<Move>, q: nat)
    requires q <= |moves|
    ensures |Run(start, moves[..q]).sessions| <= |Run(start, moves).sessions|
  {
    hide Moved;
    if q == |moves| {
      assert moves[..q] == moves;
    } else {
      var init := moves[..|moves| - 1];
      assert moves[..q] == init[..q];
      EarlierSessionsExist(start, init, q);
      SessionsGrow(Run(start, init), moves[|moves| - 1]);
    }
  }

  /** The refund of this session has been handed over and came to nothing. */
  predicate RefundLost(s: Session) {
    s.refunded && s.job.None? && s.returned == 0
  }

  lemma RefundLostStep(l: Ledger, s: Session, m: Move)
    requires Consistent(s)
    ensures RefundLost(SessionMove(l, s, m).1) <==> RefundLost(s) || (m.RefundJob? && m.dbFails && s.job.Some?)
  {
  }

  lemma OpenedHasNoRefund(l: Ledger, quota: int, trusted: bool, withToken: bool, dbFails: bool)
    ensures var s := Opened(l, quota, trusted, withToken, dbFails).1; s.Some? ==> !RefundLost(s.value)
  {
  }

  /** A refund comes to nothing exactly when the database refuses its job. */
  lemma {:induction false} RefundLostIffRefused(start: Ledger, moves: seq<Move>, i: nat)
    requires i < |Run(start, moves).sessions|
    ensures RefundLost(Run(start, moves).sessions[i]) <==> RefundRefused(start, moves, i)
  {
    hide SessionMove, Opened, Consistent, Moved, RefundLost;
    var init, m := moves[..|moves| - 1], moves[|moves| - 1];
    var sys := Run(start, init);
    RefusalInPrefix(start, moves, i);
    SessionsGrow(sys, m);
    SessionsAreConsistent(start, init);
    if i < |sys.sessions| {
      RefundLostIffRefused(start, init, i);
      NextSession(sys, m, i);
      RefundLostStep(sys.ledger, sys.sessions[i], m);
    } else {
      OpenedIsLast(sys, m);
      OpenedHasNoRefund(sys.ledger, m.quota, m.trusted, m.withToken, m.dbFails);
      NoRefusalBeforeOpening(start, init, i);
    }
  }

  lemma RefusalInPrefix(start: Ledger, moves: seq<Move>, i: nat)
    requires moves != []
    ensures RefundRefused(start, moves, i) <==>
            RefundRefused(start, moves[..|moves| - 1], i) || RefusedAt(start, moves, i, |moves| - 1)
  {
    hide Run;
    var init := moves[..|moves| - 1];
    assert forall q :: 0 <= q < |init| ==> moves[..q] == init[..q];
    forall q: nat | q < |init|
      ensures RefusedAt(start, init, i, q) == RefusedAt(start, moves, i, q)
    {
      assert moves[..q] == init[..q];
    }
  }

  lemma NoRefusalBeforeOpening(start: Ledger, moves: seq<Move>, i: nat)
    requires i >= |Run(start, moves).sessions|
    ensures !RefundRefused(start, moves, i)
  {
    hide Run;
    forall q: nat | q < |moves|
      ensures !RefusedAt(start, moves, i, q)
    {
      EarlierSessionsExist(start, moves, q);
    }
  }

  /** EXACT CHARGE. In every run, a settled session whose refund is not outstanding has taken from the
      wallet the actual amount, plus what a negative opening quota adds, minus the reserved amount if
      the settling call found the session refunded and the database did not refuse that refund. So a
      request opened with an ordinary quota pays exactly its actual amount if and only if the settling
      call found it not refunded, or its refund was refused; and one never refunded pays it if and only
      if it was trusted or its opening quota was not negative. */
  lemma SettledRequestPaysIff(start: Ledger, moves: seq<Move>, i: nat, o: nat, p: nat)
    requires OpensAt(start, moves, i, o) && SettlesAt(start, moves, i, p)
    requires i < |Run(start, moves).sessions| && Run(start, moves).sessions[i].job.None?
    ensures var found, refused := Run(start, moves[..p]).sessions[i], RefundRefused(start, moves, i);
            && Paid(start, moves, i) == moves[p].actual + Surcharge(moves[o])
                 - (if found.refunded && !refused then found.consumed else 0)
            && (Surcharge(moves[o]) == 0 ==> (Paid(start, moves, i) == moves[p].actual <==> !found.refunded || refused))
            && (!found.refunded ==> (Paid(start, moves, i) == moves[p].actual <==> Surcharge(moves[o]) == 0))
  {
    hide Run, OpensAt, SettlesAt;
    PaidIsCharge(start, moves, i);
    OpeningStands(start, moves, i, o);
    SettlementStands(start, moves, i, p);
    RefundLostIffRefused(start, moves, i);
    SessionsAreConsistent(start, moves);
    assert Consistent(Run(start, moves).sessions[i]);
  }

  /** A request that is refunded and never settled pays nothing if and only if its refund has been
      carried out; otherwise it pays what it reserved. */
  lemma RefundedRequestPaysIff(start: Ledger, moves: seq<Move>, i: nat)
    requires i < |Run(start, moves).sessions|
    requires var s := Run(start, moves).sessions[i]; s.refunded && !s.settled && s.job.None?
    ensures Paid(start, moves, i) == 0 <==> !RefundRefused(start, moves, i)
    ensures Paid(start, moves, i) == 0 || Paid(start, moves, i) == Run(start, moves).sessions[i].consumed
  {
    hide Run;
    PaidIsCharge(start, moves, i);
    RefundLostIffRefused(start, moves, i);
    SessionsAreConsistent(start, moves);
    assert Consistent(Run(start, moves).sessions[i]);
  }

  // ----- The wallet pays the bills ----------------------------------------------------------------

  /** What the upstream call finally cost, nothing if it was never settled. */
  function Bill(s: Session): int {
    if s.billed.Some? then s.billed.value else 0
  }

  function Bills(sessions: seq<Session>): int {
    if sessions == [] then 0 else Bills(sessions[..|sessions| - 1]) + Bill(sessions[|sessions| - 1])
  }

  /** Settled, or nothing of what it reserved is still held. */
  predicate Concluded(s: Session) {
    s.job.None? && (s.settled || s.returned == s.consumed)
  }

  /** The move opens no session on a negative quota and settles none that was refunded. */
  predicate Orderly(sys: System, m: Move) {
    && (m.Open? ==> m.trusted || m.quota >= 0)
    && (m.Settle? && m.i < |sys.sessions| ==> !sys.sessions[m.i].refunded)
  }

  ghost predicate OrderlyRun(start: Ledger, moves: seq<Move>) {
    forall k {:trigger moves[k]} :: 0 <= k < |moves| ==> Orderly(Run(start, moves[..k]), moves[k])
  }

  /** What orderly moves keep: no session is both settled and refunded, and none has a shortfall. */
  predicate Straight(s: Session) {
    !(s.settled && s.refunded) && Shortfall(s) == 0
  }

  lemma StraightStep(l: Ledger, s: Session, m: Move)
    requires Consistent(s) && Straight(s) && (m.Settle? ==> !s.refunded)
    ensures Straight(SessionMove(l, s, m).1)
  {
  }

  lemma StraightCostsItsBill(s: Session)
    requires Consistent(s) && Straight(s) && Concluded(s)
    ensures Charge(s) == Bill(s)
  {
  }

  ghost predicate AllStraight(sessions: seq<Session>) {
    forall i :: 0 <= i < |sessions| ==> Straight(sessions[i])
  }

  lemma {:induction false} OrderlyRunsStayStraight(start: Ledger, moves: seq<Move>)
    requires OrderlyRun(start, moves)
    ensures AllStraight(Run(start, moves).sessions)
  {
    hide Consistent, SessionMove, Opened, Straight, Moved;
    if moves != [] {
      var init, m := moves[..|moves| - 1], moves[|moves| - 1];
      var sys := Run(start, init);
      OrderlyPrefix(start, moves);
      OrderlyRunsStayStraight(start, init);
      SessionsAreConsistent(start, init);
      SessionsGrow(sys, m);
      assert Orderly(sys, m);
      forall i | 0 <= i < |Moved(sys, m).sessions|
        ensures Straight(Moved(sys, m).sessions[i])
      {
        if i < |sys.sessions| {
          NextSession(sys, m, i);
          if Concerns(sys, m, i) { StraightStep(sys.ledger, sys.sessions[i], m); }
        } else {
          OpenedIsLast(sys, m);
          OpenedIsStraight(sys.ledger, m.quota, m.trusted, m.withToken, m.dbFails);
        }
      }
    }
  }

  lemma OrderlyPrefix(start: Ledger, moves: seq<Move>)
    requires moves != [] && OrderlyRun(start, moves)
    ensures OrderlyRun(start, moves[..|moves| - 1]) && Orderly(Run(start, moves[..|moves| - 1]), moves[|moves| - 1])
  {
    hide Run, Orderly;
    var init := moves[..|moves| - 1];
    forall k | 0 <= k < |init|
      ensures Orderly(Run(start, init[..k]), init[k])
    {
      assert init[..k] == moves[..k] && init[k] == moves[k];
    }
  }

  lemma OpenedIsStraight(l: Ledger, quota: int, trusted: bool, withToken: bool, dbFails: bool)
    requires trusted || quota >= 0
    ensures var s := Opened(l, quota, trusted, withToken, dbFails).1; s.Some? ==> Straight(s.value)
  {
  }

  lemma {:induction false} ChargesAreBills(sessions: seq<Session>)
    requires AllConsistent(sessions) && AllStraight(sessions)
    requires forall i :: 0 <= i < |sessions| ==> Concluded(sessions[i])
    ensures UserCharges(sessions) == Bills(sessions)
  {
    hide Charge, Bill, Consistent, Concluded, Straight;
    if sessions != [] {
      ChargesAreBills(sessions[..|sessions| - 1]);
      StraightCostsItsBill(sessions[|sessions| - 1]);
    }
  }

  /** In every orderly run whose sessions are all concluded the wallet has paid exactly the bills. */
  lemma WalletPaysTheBills(start: Ledger, moves: seq<Move>)
    requires OrderlyRun(start, moves)
    requires var r := Run(start, moves); forall i :: 0 <= i < |r.sessions| ==> Concluded(r.sessions[i])
    ensures var r := Run(start, moves); Wallet(r.ledger) == Wallet(start) + QueuedUser(moves) - Bills(r.sessions)
  {
    hide Concluded, Straight, Run, OrderlyRun;
    QuotaIsConserved(start, moves);
    SessionsAreConsistent(start, moves);
    OrderlyRunsStayStraight(start, moves);
    ChargesAreBills(Run(start, moves).sessions);
  }

  lemma RunAppend(start: Ledger, moves: seq<Move>, m: Move)
    ensures Run(start, []) == System(start, []) && Run(start, moves + [m]) == Moved(Run(start, moves), m)
  {
    assert (moves + [m])[..|moves|] == moves;
  }

  /** Nothing in the session stops a settlement after a refund: ten are reserved, refunded, then eight
      are billed, and the wallet ends up two better off than before the request. */
  lemma SettlingAfterRefundUndercharges()
    ensures var start := Ledger(100, 100, 0, false, 0, 0);
            var moves := [Open(10, false, true, false)] + [Refund(0)] + [RefundJob(0, false)] + [Settle(0, 8, false)];
            Paid(start, moves, 0) == -2 && Wallet(Run(start, moves).ledger) == 102
  {
    hide Run, Moved, Paid;
    var start := Ledger(100, 100, 0, false, 0, 0);
    var moves := [Open(10, false, true, false)];
    RunAppend(start, [], moves[0]);
    assert [] + [moves[0]] == moves;
    RunAppend(start, moves, Refund(0));
    RunAppend(start, moves + [Refund(0)], RefundJob(0, false));
    RunAppend(start, moves + [Refund(0)] + [RefundJob(0, false)], Settle(0, 8, false));
    ReservedThenRefunded(start);
    SettledAfterRefund(start);
    PaidIsCharge(start, moves + [Refund(0)] + [RefundJob(0, false)] + [Settle(0, 8, false)], 0);
  }

  /** The state in which the ten have been reserved and given back. */
  function TenReturned(start: Ledger): System {
    System(start, [Session(10, 10, 10, false, true, false, false, true, None, None, 10)])
  }

  lemma ReservedThenRefunded(start: Ledger)
    requires start == Ledger(100, 100, 0, false, 0, 0)
    ensures var called := Moved(Moved(System(start, []), Open(10, false, true, false)), Refund(0));
            Moved(called, RefundJob(0, false)) == TenReturned(start)
  {
    var reserved := Session(10, 10, 10, false, true, false, false, false, None, None, 0);
    var mid := Ledger(90, 90, 10, false, 0, 0);
    assert Moved(System(start, []), Open(10, false, true, false)) == System(mid, [reserved]);
    var called := reserved.(refunded := true, job := Some(10));
    assert Moved(System(mid, [reserved]), Refund(0)) == System(mid, [called]);
    assert RefundRun(mid, called, false) == (start, called.(job := None, returned := 10));
  }

  lemma SettledAfterRefund(start: Ledger)
    requires start == Ledger(100, 100, 0, false, 0, 0)
    ensures var r := Moved(TenReturned(start), Settle(0, 8, false));
            |r.sessions| == 1 && Charge(r.sessions[0]) == -2 && Wallet(r.ledger) == 102
  {
    assert Settled(start, TenReturned(start).sessions[0], 8, false).0 == Ledger(102, 102, -2, false, 0, 0);
  }

  /** A session opened on minus five reserves nothing, and a bill of eight is charged as thirteen. */
  lemma NegativeQuotaOvercharges()
    ensures var start := Ledger(100, 100, 0, false, 0, 0);
            var moves := [Open(-5, false, true, false)] + [Settle(0, 8, false)];
            Paid(start, moves, 0) == 13 && Wallet(Run(start, moves).ledger) == 87
  {
    hide Run, Moved, Paid;
    var start := Ledger(100, 100, 0, false, 0, 0);
    var moves := [Open(-5, false, true, false)];
    RunAppend(start, [], moves[0]);
    assert [] + [moves[0]] == moves;
    RunAppend(start, moves, Settle(0, 8, false));
    NegativeQuotaSteps(start);
    PaidIsCharge(start, moves + [Settle(0, 8, false)], 0);
  }

  lemma NegativeQuotaSteps(start: Ledger)
    requires start == Ledger(100, 100, 0, false, 0, 0)
    ensures var r := Moved(Moved(System(start, []), Open(-5, false, true, false)), Settle(0, 8, false));
            |r.sessions| == 1 && Charge(r.sessions[0]) == 13 && Wallet(r.ledger) == 87
  {
    var reserved := Fresh(true).(pre := -5);
    assert Moved(System(start, []), Open(-5, false, true, false)) == System(start, [reserved]);
    assert Settled(start, reserved, 8, false).0 == Ledger(87, 87, 13, false, 0, 0);
  }

  // ----- Raising a reservation -----------------------------------------------------------------------

  /** Raising an open, untrusted session's reservation to a higher target reserves exactly the target if
      wallet and limited token hold the difference and the database accepts it, and is refused without
      effect otherwise; at or below the reservation, or after the session has ended, nothing happens. */
  lemma ReserveRaisesToTarget(l: Ledger, s: Session, target: int, dbFails: bool)
    requires Consistent(s)
    ensures var (after, t, v) := Reserved(l, s, target, dbFails);
            var more := target - s.pre;
            if s.settled || s.refunded || s.trusted || more <= 0 then (after, t, v) == (l, s, Accepted)
            else if !dbFails && Wallet(l) >= more && (s.withToken && !l.unlimited ==> TokenLeft(l) >= more) then
              && v == Accepted && Took(l, after, more, s.withToken)
              && t == s.(pre := target, consumed := s.consumed + more, tokenConsumed := s.tokenConsumed + more)
            else
              && after == l && t == s
              && v == if dbFails then DatabaseError
                      else if Wallet(l) < more then InsufficientUserQuota else InsufficientTokenQuota
  {
    hide ReserveWallet;
    var more := target - s.pre;
    if more > 0 {
      ReservationNeverOverdraws(l, more, s.withToken, dbFails);
      LedgerTakes(l, more, s.withToken, dbFails);
      RefusalNamesItsReason(l, more, s.withToken, dbFails);
    }
  }

  /** Why a reservation is refused: a negative amount, the database, the wallet, the token, in this order. */
  lemma RefusalNamesItsReason(l: Ledger, amount: int, withToken: bool, dbFails: bool)
    ensures var v := ReserveWallet(l, amount, withToken, dbFails).1;
            && (v == NegativeQuota <==> amount < 0)
            && (v == DatabaseError <==> amount > 0 && dbFails)
            && (v == InsufficientUserQuota <==> amount > 0 && !dbFails && Wallet(l) < amount)
            && (v == InsufficientTokenQuota <==> && amount > 0 && !dbFails && Wallet(l) >= amount
                                                 && withToken && !l.unlimited && TokenLeft(l) < amount)
  {
  }

  /** Opening a session reserves exactly its quota under the same condition, and nothing if it is trusted
      or asks for nothing. */
  lemma OpeningReservesQuota(l: Ledger, quota: int, trusted: bool, withToken: bool, dbFails: bool)
    ensures var (after, s) := Opened(l, quota, trusted, withToken, dbFails);
            if trusted || quota <= 0 then
              && after == l && s.Some? && s.value.consumed == 0 && s.value.trusted == trusted
              && s.value.pre == (if trusted then 0 else quota)
            else if !dbFails && Wallet(l) >= quota && (withToken && !l.unlimited ==> TokenLeft(l) >= quota) then
              && s.Some? && Took(l, after, quota, withToken)
              && s.value.pre == s.value.consumed == quota && !s.value.trusted
            else s.None? && after == l
  {
    hide ReserveWallet;
    if quota > 0 {
      ReservationNeverOverdraws(l, quota, withToken, dbFails);
      LedgerTakes(l, quota, withToken, dbFails);
      RefusalNamesItsReason(l, quota, withToken, dbFails);
    }
  }

  // ----- Settling, refunding and batching, step by step ------------------------------------------------

  /** An adjustment is refused only by the database, and only if there is something to adjust. */
  lemma AdjustmentTakesDelta(l: Ledger, delta: int, withToken: bool, dbFails: bool)
    ensures var (after, v) := AdjustWallet(l, delta, withToken, dbFails);
            && v == (if delta != 0 && dbFails then DatabaseError else Accepted)
            && Took(l, after, if v.Accepted? then delta else 0, withToken)
            && (!v.Accepted? || delta == 0 ==> after == l)
  {
    hide AdjustWallet;
    LedgerTakes(l, delta, withToken, dbFails);
    AdjustmentVerdict(l, delta, withToken, dbFails);
  }

  lemma AdjustmentVerdict(l: Ledger, delta: int, withToken: bool, dbFails: bool)
    ensures var (after, v) := AdjustWallet(l, delta, withToken, dbFails);
            && v == (if delta != 0 && dbFails then DatabaseError else Accepted)
            && (!v.Accepted? || delta == 0 ==> after == l)
  {
  }

  /** A charge or refund that goes through stores the queued updates it was checked against: the user's,
      and the token's if the token takes part; another token queue stays as it is. */
  lemma TransactionStoresQueues(l: Ledger, amount: int, withToken: bool, dbFails: bool)
    ensures var (after, v) := ReserveWallet(l, amount, withToken, dbFails);
            amount > 0 && v.Accepted? ==> Drained(l, after, amount, withToken)
    ensures var (after, v) := AdjustWallet(l, amount, withToken, dbFails);
            amount != 0 && v.Accepted? ==> Drained(l, after, amount, withToken)
  {
  }

  predicate Drained(l: Ledger, after: Ledger, amount: int, withToken: bool) {
    && after.pendingUser == 0 && after.quota == Wallet(l) - amount
    && (if withToken then after.pendingToken == 0 && after.remain == TokenLeft(l) - amount
        else after.pendingToken == l.pendingToken && after.remain == l.remain && after.used == l.used)
  }

  /** A settlement of an unsettled session takes the difference between the actual amount and what was
      reserved and records the bill, unless the database refuses; a settled one is left alone. */
  lemma SettlementTakesDifference(l: Ledger, s: Session, actual: int, dbFails: bool)
    requires Consistent(s)
    ensures var (after, t, v) := Settled(l, s, actual, dbFails);
            if s.settled then (after, t, v) == (l, s, Accepted)
            else if actual != s.pre && dbFails then (after, t, v) == (l, s, DatabaseError)
            else
              && v == Accepted && Took(l, after, actual - s.pre, s.withToken)
              && t == s.(settled := true, billed := Some(actual), fundingSettled := actual != s.pre)
  {
    hide AdjustWallet;
    AdjustmentTakesDelta(l, actual - s.pre, s.withToken, dbFails);
  }

  /** A refund call on an open session that has reserved anything hands over a job for all of it; on any
      other it does nothing. The job gives the amount back, once, unless the database refuses. */
  lemma RefundGivesBackReserved(l: Ledger, s: Session, dbFails: bool)
    requires Consistent(s)
    ensures RefundCalled(s) == if s.settled || s.refunded || s.consumed == 0 then s
                               else s.(refunded := true, job := Some(s.consumed))
    ensures var (after, t) := RefundRun(l, s, dbFails);
            if s.job.None? then (after, t) == (l, s)
            else if dbFails then (after, t) == (l, s.(job := None))
            else Took(l, after, 0 - s.consumed, s.withToken) && t == s.(job := None, returned := s.consumed)
  {
    hide AdjustWallet;
    AdjustmentTakesDelta(l, 0 - s.consumed, s.withToken, dbFails);
  }

  /** A batch pass stores a queue that the database accepts and keeps one that it refuses. */
  lemma BatchStoresQueue(l: Ledger, ok: bool)
    ensures FlushedUser(l, ok) == if ok then l.(quota := Wallet(l), pendingUser := 0) else l
    ensures var r := FlushedToken(l, ok);
            if ok then r.remain == TokenLeft(l) && r.pendingToken == 0 && r.remain + r.used == l.remain + l.used
            else r == l
    ensures var r := FlushedToken(l, ok); r.quota == l.quota && r.pendingUser == l.pendingUser
  {
  }

  /** In every run, a batch pass the database accepts leaves nothing queued and the stored quota at what
      the user really has; one it refuses changes nothing. The same holds for the token. */
  lemma BatchPassInRun(start: Ledger, moves: seq<Move>, ok: bool)
    ensures var l, u := Run(start, moves).ledger, Run(start, moves + [FlushUser(ok)]).ledger;
            if ok then u.pendingUser == 0 && u.quota == Wallet(l) else u == l
    ensures var l, t := Run(start, moves).ledger, Run(start, moves + [FlushToken(ok)]).ledger;
            if ok then t.pendingToken == 0 && t.remain == TokenLeft(l) else t == l
  {
    hide Run;
    RunAppend(start, moves, FlushUser(ok));
    RunAppend(start, moves, FlushToken(ok));
    BatchStoresQueue(Run(start, moves).ledger, ok);
  }

  // ----- Overdraft --------------------------------------------------------------------------------

  /** An accepted reservation leaves the wallet, and a limited token it is charged to, at zero or above,
      queued updates included; one the database takes is accepted exactly when both hold enough. */
  lemma ReservationNeverOverdraws(l: Ledger, amount: int, withToken: bool, dbFails: bool)
    ensures var (after, v) := ReserveWallet(l, amount, withToken, dbFails);
            && after.unlimited == l.unlimited
            && (amount > 0 && !dbFails ==>
                  (v.Accepted? <==> Wallet(l) >= amount && (withToken && !l.unlimited ==> TokenLeft(l) >= amount)))
            && (amount > 0 && v.Accepted? ==>
                  Wallet(after) >= 0 && (withToken && !l.unlimited ==> TokenLeft(after) >= 0))
            && (!withToken || !v.Accepted? || amount <= 0 ==> TokenLeft(after) == TokenLeft(l))
            && (!v.Accepted? || amount <= 0 ==> after == l)
  {
  }

  /** Giving back never lowers wallet or token. */
  lemma RefundNeverLowers(l: Ledger, amount: nat, withToken: bool, dbFails: bool)
    ensures var after := AdjustWallet(l, 0 - amount, withToken, dbFails).0;
            Wallet(after) >= Wallet(l) && TokenLeft(after) >= TokenLeft(l) && after.unlimited == l.unlimited
  {
  }

  predicate NoUserDebit(m: Move) {
    !m.Settle? && (m.QueueUser? ==> m.delta >= 0)
  }

  predicate NoTokenDebit(m: Move) {
    !m.Settle? && (m.QueueToken? ==> m.delta >= 0)
  }

  predicate TokenSolvent(l: Ledger) {
    l.unlimited || TokenLeft(l) >= 0
  }

  lemma SessionMoveKeepsSolvent(l: Ledger, s: Session, m: Move)
    requires !m.Settle?
    ensures var after := SessionMove(l, s, m).0;
            (Wallet(l) >= 0 ==> Wallet(after) >= 0) && (TokenSolvent(l) ==> TokenSolvent(after))
  {
    hide ReserveWallet, AdjustWallet, Wallet, TokenLeft;
    match m {
      case Reserve(_, target, dbFails) => ReservationNeverOverdraws(l, target - s.pre, s.withToken, dbFails);
      case RefundJob(_, dbFails) => if s.job.Some? { RefundNeverLowers(l, s.job.value, s.withToken, dbFails); }
      case _ =>
    }
  }

  lemma MoveKeepsSolvent(sys: System, m: Move)
    ensures Wallet(sys.ledger) >= 0 && NoUserDebit(m) ==> Wallet(Moved(sys, m).ledger) >= 0
    ensures TokenSolvent(sys.ledger) && NoTokenDebit(m) ==> TokenSolvent(Moved(sys, m).ledger)
  {
    hide SessionMove, ReserveWallet;
    if m.Open? {
      ReservationNeverOverdraws(sys.ledger, if m.trusted then 0 else m.quota, m.withToken, m.dbFails);
    } else if Addresses(m, |sys.sessions|) && !m.Settle? {
      SessionMoveKeepsSolvent(sys.ledger, sys.sessions[m.i], m);
    }
  }

  /** Without settlements and queued debits neither the wallet nor a limited token goes below zero in any
      run. */
  lemma {:induction false} ReservingRunsStaySolvent(start: Ledger, moves: seq<Move>)
    ensures Wallet(start) >= 0 && (forall i :: 0 <= i < |moves| ==> NoUserDebit(moves[i])) ==>
              Wallet(Run(start, moves).ledger) >= 0
    ensures TokenSolvent(start) && (forall i :: 0 <= i < |moves| ==> NoTokenDebit(moves[i])) ==>
              TokenSolvent(Run(start, moves).ledger)
  {
    if moves != [] {
      hide Moved, NoUserDebit, NoTokenDebit, TokenSolvent, Wallet;
      var init := moves[..|moves| - 1];
      ReservingRunsStaySolvent(start, init);
      MoveKeepsSolvent(Run(start, init), moves[|moves| - 1]);
    }
  }

  /** A settlement can: five are reserved of ten, twenty are billed. */
  lemma SettlementCanOverdraw()
    ensures var start := Ledger(10, 10, 0, false, 0, 0);
            var r := Run(start, [Open(5, false, true, false)] + [Settle(0, 20, false)]).ledger;
            Wallet(r) == -10 && TokenLeft(r) == -10
  {
    hide Run, Moved;
    var start, moves := Ledger(10, 10, 0, false, 0, 0), [Open(5, false, true, false)];
    RunAppend(start, [], moves[0]);
    assert [] + [moves[0]] == moves;
    RunAppend(start, moves, Settle(0, 20, false));
    OverdraftSteps(start);
  }

  lemma OverdraftSteps(start: Ledger)
    requires start == Ledger(10, 10, 0, false, 0, 0)
    ensures var r := Moved(Moved(System(start, []), Open(5, false, true, false)), Settle(0, 20, false)).ledger;
            Wallet(r) == -10 && TokenLeft(r) == -10
  {
    var reserved := Fresh(true).(pre := 5, consumed := 5, tokenConsumed := 5);
    var mid := Ledger(5, 5, 5, false, 0, 0);
    assert Moved(System(start, []), Open(5, false, true, false)) == System(mid, [reserved]);
    assert Settled(mid, reserved, 20, false).0 == Ledger(-10, -10, 20, false, 0, 0);
  }
}
