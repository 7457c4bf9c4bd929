/** The usage counters of common/disk_cache_config.go under concurrent creation and closing of storages,
    and the disk budget they are checked against. Every counter read and update is one atomic step, and
    steps of different calls interleave freely. Directory clean-up, counter resets and synchronisation
    from the file system do not take part. */
module StorageAccounting {

  /** How far a storage's life has got, one atomic step at a time. */
  datatype Phase =
    | Starting     // the count is about to be incremented
    | Counted      // the count is, the byte total is not
    | Open
    | Closing      // Close has won its compare-and-swap, nothing is decremented yet
    | ClampCount   // the count went below zero and is about to be reset
    | Uncounted    // the count is decremented, the byte total is not
    | ClampBytes   // the byte total went below zero and is about to be reset
    | Closed

  datatype Slot = Slot(disk: bool, size: nat, phase: Phase)

  datatype Counters = Counters(count: int, bytes: int)

  datatype System = System(disk: Counters, memory: Counters, slots: seq<Slot>)

  const EMPTY := System(Counters(0, 0), Counters(0, 0), [])

  /** The next atomic step of one storage, on the counters of its kind. A further Close finds the flag
      set and changes nothing. Only the disk counters are clamped. */
  function Step(c: Counters, s: Slot): (Counters, Phase) {
    match s.phase
    case Starting => (c.(count := c.count + 1), Counted)
    case Counted => (c.(bytes := c.bytes + s.size), Open)
    case Open => (c, Closing)
    case Closing => (c.(count := c.count - 1), if s.disk && c.count - 1 < 0 then ClampCount else Uncounted)
    case ClampCount => (c.(count := 0), Uncounted)
    case Uncounted => (c.(bytes := c.bytes - s.size), if s.disk && c.bytes - s.size < 0 then ClampBytes else Closed)
    case ClampBytes => (c.(bytes := 0), Closed)
    case Closed => (c, Closed)
  }

  /** A run is a sequence of creations and of steps of existing storages, in any order. A creation that
      wants the disk checks the budget for the size declared in advance; `size` is what is then stored. */
  datatype Move = Create(disk: bool, declared: nat, size: nat) | Advance(slot: nat)

  /** The check of the budget, which falls back to memory. */
  predicate Available(limit: int, sys: System, declared: nat) {
    sys.disk.bytes + declared <= limit
  }

  function Moved(limit: int, sys: System, m: Move): System {
    match m
    case Create(disk, declared, size) =>
      sys.(slots := sys.slots + [Slot(disk && Available(limit, sys, declared), size, Starting)])
    case Advance(i) =>
      if i >= |sys.slots| then sys
      else
        var s := sys.slots[i];
        var (c, phase) := Step(if s.disk then sys.disk else sys.memory, s);
        var slots := sys.slots[i := s.(phase := phase)];
        if s.disk then System(c, sys.memory, slots) else System(sys.disk, c, slots)
  }

  function Run(limit: int, moves: seq<Move>): System {
    if moves == [] then EMPTY else Moved(limit, Run(limit, moves[..|moves| - 1]), moves[|moves| - 1])
  }

  // ----- What each storage contributes ------------------------------------------------------

  function CountOf(s: Slot): int {
    if s.phase.Counted? || s.phase.Open? || s.phase.Closing? then 1 else 0
  }

  function BytesOf(s: Slot): int {
    if s.phase.Open? || s.phase.Closing? || s.phase.Uncounted? then s.size else 0
  }

  /** The totals over the storages of one kind. */
  function Totals(slots: seq<Slot>, disk: bool): (c: Counters)
    ensures c.count >= 0 && c.bytes >= 0
  {
    if slots == [] then Counters(0, 0)
    else
      var t, s := Totals(slots[..|slots| - 1], disk), slots[|slots| - 1];
      if s.disk != disk then t else Counters(t.count + CountOf(s), t.bytes + BytesOf(s))
  }

  lemma {:induction false} TotalsAfterChange(slots: seq<Slot>, disk: bool, i: nat, phase: Phase)
    requires i < |slots|
    ensures var s, s' := slots[i], slots[i].(phase := phase);
            var t, t' := Totals(slots, disk), Totals(slots[i := s'], disk);
            if s.disk == disk
            then t' == Counters(t.count - CountOf(s) + CountOf(s'), t.bytes - BytesOf(s) + BytesOf(s'))
                 && t.count >= CountOf(s) && t.bytes >= BytesOf(s)
            else t' == t
  {
    hide CountOf, BytesOf;
    var n := |slots| - 1;
    var s' := slots[i].(phase := phase);
    if i < n {
      TotalsAfterChange(slots[..n], disk, i, phase);
      assert slots[i := s'][..n] == slots[..n][i := s'];
      OwnShare(slots[n]);
    } else {
      assert slots[i := s'][..n] == slots[..n];
    }
  }

  lemma OwnShare(s: Slot)
    ensures CountOf(s) >= 0 && BytesOf(s) >= 0
  {
  }

  lemma TotalsAfterAppend(slots: seq<Slot>, s: Slot, disk: bool)
    requires s.phase.Starting?
    ensures Totals(slots + [s], disk) == Totals(slots, disk)
  {
    assert (slots + [s])[..|slots|] == slots;
  }

  predicate NoClamp(slots: seq<Slot>) {
    forall i :: 0 <= i < |slots| ==> !slots[i].phase.ClampCount? && !slots[i].phase.ClampBytes?
  }

  /** CONSERVATION. At every moment the counters are the totals of what the storages have contributed
      so far, and no clamp has fired. */
  ghost predicate Accounted(sys: System) {
    && sys.disk == Totals(sys.slots, true) && sys.memory == Totals(sys.slots, false)
    && NoClamp(sys.slots)
  }

  /** A step changes its counters by the change of its storage's contribution, and needs no clamp. */
  lemma StepMovesContribution(c: Counters, s: Slot)
    requires c.count >= CountOf(s) && c.bytes >= BytesOf(s) && !s.phase.ClampCount? && !s.phase.ClampBytes?
    ensures var (c', phase) := Step(c, s);
            var s' := s.(phase := phase);
            && !phase.ClampCount? && !phase.ClampBytes?
            && c' == Counters(c.count - CountOf(s) + CountOf(s'), c.bytes - BytesOf(s) + BytesOf(s'))
  {
  }

  lemma MoveKeepsAccounts(limit: int, sys: System, m: Move)
    requires Accounted(sys)
    ensures Accounted(Moved(limit, sys, m))
  {
    hide Totals, CountOf, BytesOf, Step;
    match m {
      case Create(disk, declared, size) =>
        var s := Slot(disk && Available(limit, sys, declared), size, Starting);
        TotalsAfterAppend(sys.slots, s, true);
        TotalsAfterAppend(sys.slots, s, false);
      case Advance(i) =>
        if i < |sys.slots| {
          var s := sys.slots[i];
          var c := if s.disk then sys.disk else sys.memory;
          TotalsAfterChange(sys.slots, true, i, Step(c, s).1);
          TotalsAfterChange(sys.slots, false, i, Step(c, s).1);
          StepMovesContribution(c, s);
        }
    }
  }

  /** In every run of every interleaving the accounts are right and neither clamp ever fires. */
  lemma {:induction false} EveryRunIsAccounted(limit: int, moves: seq<Move>)
    ensures Accounted(Run(limit, moves))
  {
    if moves != [] {
      EveryRunIsAccounted(limit, moves[..|moves| - 1]);
      MoveKeepsAccounts(limit, Run(limit, moves[..|moves| - 1]), moves[|moves| - 1]);
    }
  }

  // ----- When no call is in progress -----------------------------------------------------------

  predicate Quiet(slots: seq<Slot>) {
    forall i :: 0 <= i < |slots| ==> slots[i].phase.Open? || slots[i].phase.Closed?
  }

  /** The number and the summed sizes of the open storages of one kind. */
  function OpenStorages(slots: seq<Slot>, disk: bool): Counters {
    if slots == [] then Counters(0, 0)
    else
      var t, s := OpenStorages(slots[..|slots| - 1], disk), slots[|slots| - 1];
      if s.disk == disk && s.phase.Open? then Counters(t.count + 1, t.bytes + s.size) else t
  }

  lemma {:induction false} QuietTotals(slots: seq<Slot>, disk: bool)
    requires Quiet(slots)
    ensures Totals(slots, disk) == OpenStorages(slots, disk)
  {
    if slots != [] { QuietTotals(slots[..|slots| - 1], disk); }
  }

  /** Whenever no call is in progress the counters are the number and the summed sizes of the open
      memory and disk storages. */
  lemma QuietCountersAreExact(limit: int, moves: seq<Move>)
    requires Quiet(Run(limit, moves).slots)
    ensures Run(limit, moves).disk == OpenStorages(Run(limit, moves).slots, true)
    ensures Run(limit, moves).memory == OpenStorages(Run(limit, moves).slots, false)
  {
    EveryRunIsAccounted(limit, moves);
    QuietTotals(Run(limit, moves).slots, true);
    QuietTotals(Run(limit, moves).slots, false);
  }

  /** The number and the summed sizes of the storages of one kind with a call in progress. */
  function Busy(slots: seq<Slot>, disk: bool): Counters {
    if slots == [] then Counters(0, 0)
    else
      var t, s := Busy(slots[..|slots| - 1], disk), slots[|slots| - 1];
      if s.disk == disk && !s.phase.Open? && !s.phase.Closed? then Counters(t.count + 1, t.bytes + s.size) else t
  }

  lemma {:induction false} TotalsWithinBusy(slots: seq<Slot>, disk: bool)
    ensures var t, o, b := Totals(slots, disk), OpenStorages(slots, disk), Busy(slots, disk);
            o.count <= t.count <= o.count + b.count && o.bytes <= t.bytes <= o.bytes + b.bytes
  {
    if slots != [] { TotalsWithinBusy(slots[..|slots| - 1], disk); }
  }

  /** At every moment of every run the counters exceed the open storages by at most the number and the
      sizes of the storages with a call in progress. */
  lemma DriftIsBounded(limit: int, moves: seq<Move>, disk: bool)
    ensures var sys := Run(limit, moves);
            var c, o, b := if disk then sys.disk else sys.memory, OpenStorages(sys.slots, disk), Busy(sys.slots, disk);
            o.count <= c.count <= o.count + b.count && o.bytes <= c.bytes <= o.bytes + b.bytes
  {
    EveryRunIsAccounted(limit, moves);
    TotalsWithinBusy(Run(limit, moves).slots, disk);
  }

  // ----- The life of a storage ----------------------------------------------------------------------------

  /** A storage is counted, then its bytes are, then it is open; Close uncounts it in the same order, and
      it stays closed. */
  const LIFE: seq<Phase> := [Starting, Counted, Open, Closing, Uncounted, Closed]

  function PhaseAfter(steps: nat): Phase {
    LIFE[if steps < 5 then steps else 5]
  }

  /** The steps the i-th storage has taken. */
  function StepsOf(limit: int, moves: seq<Move>, i: nat): nat {
    if moves == [] then 0
    else
      var init := moves[..|moves| - 1];
      var own := moves[|moves| - 1] == Advance(i) && i < |Run(limit, init).slots|;
      StepsOf(limit, init, i) + if own then 1 else 0
  }

  lemma StepAges(c: Counters, s: Slot, n: nat)
    requires c.count >= CountOf(s) && c.bytes >= BytesOf(s) && s.phase == PhaseAfter(n)
    ensures Step(c, s).1 == PhaseAfter(n + 1)
  {
  }

  /** In every run each storage goes through its life once, one phase a step, whatever the others do. */
  lemma {:induction false} StorageLivesOnce(limit: int, moves: seq<Move>, i: nat)
    ensures i >= |Run(limit, moves).slots| ==> StepsOf(limit, moves, i) == 0
    ensures i < |Run(limit, moves).slots| ==> Run(limit, moves).slots[i].phase == PhaseAfter(StepsOf(limit, moves, i))
  {
    hide PhaseAfter, Step, Totals;
    if moves != [] {
      var init, m := moves[..|moves| - 1], moves[|moves| - 1];
      StorageLivesOnce(limit, init, i);
      var sys := Run(limit, init);
      EveryRunIsAccounted(limit, init);
      if m == Advance(i) && i < |sys.slots| {
        var s := sys.slots[i];
        var c := if s.disk then sys.disk else sys.memory;
        TotalsAfterChange(sys.slots, s.disk, i, Closed);
        StepAges(c, s, StepsOf(limit, init, i));
      } else {
        NewbornPhase();
      }
    }
  }

  lemma NewbornPhase()
    ensures PhaseAfter(0) == Starting
  {
  }

  // ----- The disk budget ---------------------------------------------------------------------------

  function InFlightOf(s: Slot): nat {
    if s.disk && (s.phase.Starting? || s.phase.Counted?) then s.size else 0
  }

  /** The sizes of the disk storages that passed the check and are not in the byte total yet. */
  function InFlight(slots: seq<Slot>): nat {
    if slots == [] then 0 else InFlight(slots[..|slots| - 1]) + InFlightOf(slots[|slots| - 1])
  }

  lemma {:induction false} InFlightAfterChange(slots: seq<Slot>, i: nat, s: Slot)
    requires i < |slots|
    ensures InFlight(slots[i := s]) == InFlight(slots) - InFlightOf(slots[i]) + InFlightOf(s)
  {
    hide InFlightOf;
    var n := |slots| - 1;
    if i < n {
      InFlightAfterChange(slots[..n], i, s);
      assert slots[i := s][..n] == slots[..n][i := s];
    } else {
      assert slots[i := s][..n] == slots[..n];
    }
  }

  /** A disk creation made while `excess` or less is in flight, what it stores beyond its declared size
      included. */
  predicate WithinExcess(limit: int, sys: System, m: Move, excess: nat) {
    m.Create? && m.disk && Available(limit, sys, m.declared) ==> InFlight(sys.slots) + m.size - m.declared <= excess
  }

  /** A negative budget is as good as none. */
  function Budget(limit: int): nat {
    if limit < 0 then 0 else limit
  }

  /** What is stored and what is in flight stay within the budget and the excess. */
  ghost predicate Budgeted(limit: int, sys: System, excess: nat) {
    sys.disk.bytes + InFlight(sys.slots) <= Budget(limit) + excess
  }

  lemma MoveKeepsBudget(limit: int, sys: System, m: Move, excess: nat)
    requires Accounted(sys) && Budgeted(limit, sys, excess) && WithinExcess(limit, sys, m, excess)
    ensures Budgeted(limit, Moved(limit, sys, m), excess)
  {
    match m {
      case Create(disk, declared, size) =>
        var s := Slot(disk && Available(limit, sys, declared), size, Starting);
        assert (sys.slots + [s])[..|sys.slots|] == sys.slots;
      case Advance(i) =>
        if i < |sys.slots| {
          var s := sys.slots[i];
          var (c, phase) := Step(if s.disk then sys.disk else sys.memory, s);
          InFlightAfterChange(sys.slots, i, s.(phase := phase));
          TotalsAfterChange(sys.slots, true, i, phase);
        }
    }
  }

  ghost predicate EveryCreationWithinExcess(limit: int, moves: seq<Move>, excess: nat) {
    forall k {:trigger moves[k]} :: 0 <= k < |moves| ==> WithinExcess(limit, Run(limit, moves[..k]), moves[k], excess)
  }

  lemma {:induction false} BudgetHoldsUpToExcess(limit: int, moves: seq<Move>, excess: nat)
    requires EveryCreationWithinExcess(limit, moves, excess)
    ensures Budgeted(limit, Run(limit, moves), excess)
  {
    hide Moved, WithinExcess, Accounted;
    if moves != [] {
      var n := |moves| - 1;
      var init := moves[..n];
      forall k | 0 <= k < n
        ensures WithinExcess(limit, Run(limit, init[..k]), init[k], excess)
      {
        assert init[..k] == moves[..k] && init[k] == moves[k];
      }
      BudgetHoldsUpToExcess(limit, init, excess);
      EveryRunIsAccounted(limit, init);
      assert WithinExcess(limit, Run(limit, init), moves[n], excess);
      MoveKeepsBudget(limit, Run(limit, init), moves[n], excess);
    }
  }

  /** No disk creation passes the check while another is in flight, and none stores more than declared. */
  ghost predicate OneAtATime(limit: int, moves: seq<Move>) {
    forall k {:trigger moves[k]} :: 0 <= k < |moves| ==>
      var sys := Run(limit, moves[..k]);
      moves[k].Create? && moves[k].disk && Available(limit, sys, moves[k].declared) ==>
        InFlight(sys.slots) == 0 && moves[k].size <= moves[k].declared
  }

  /** A BOUND. At every moment of every run the disk bytes exceed the budget by at most what
      was in flight, and stored beyond its declared size, when some creation passed the check; so if
      creations pass it one at a time and store what they declare, the budget is kept throughout. */
  lemma DiskBytesWithinBudget(limit: int, moves: seq<Move>, excess: nat)
    ensures EveryCreationWithinExcess(limit, moves, excess) ==> Run(limit, moves).disk.bytes <= Budget(limit) + excess
    ensures OneAtATime(limit, moves) ==> Run(limit, moves).disk.bytes <= Budget(limit)
  {
    hide Moved, Run;
    if EveryCreationWithinExcess(limit, moves, excess) { BudgetHoldsUpToExcess(limit, moves, excess); }
    if OneAtATime(limit, moves) {
      assert EveryCreationWithinExcess(limit, moves, 0);
      BudgetHoldsUpToExcess(limit, moves, 0);
    }
  }

  // ----- When the budget is kept, exactly -------------------------------------------------------------

  /** The calls in progress take further steps, and no new storage is created. */
  function Advanced(sys: System, steps: seq<nat>): System {
    if steps == [] then sys else Moved(0, Advanced(sys, steps[..|steps| - 1]), Advance(steps[|steps| - 1]))
  }

  /** However the calls in progress go on, the disk bytes stay within the budget. */
  ghost predicate Safe(limit: int, sys: System) {
    forall steps :: Advanced(sys, steps).disk.bytes <= Budget(limit)
  }

  /** Going on never raises the bytes stored and in flight. */
  lemma AdvanceNeverRaises(sys: System, i: nat)
    requires Accounted(sys)
    ensures var r := Moved(0, sys, Advance(i));
            Accounted(r) && r.disk.bytes + InFlight(r.slots) <= sys.disk.bytes + InFlight(sys.slots)
  {
    MoveKeepsAccounts(0, sys, Advance(i));
    MoveKeepsBudget(0, sys, Advance(i), sys.disk.bytes + InFlight(sys.slots));
  }

  lemma {:induction false} AdvancedNeverRaises(sys: System, steps: seq<nat>)
    requires Accounted(sys)
    ensures var r := Advanced(sys, steps);
            Accounted(r) && r.disk.bytes + InFlight(r.slots) <= sys.disk.bytes + InFlight(sys.slots)
  {
    hide Accounted, InFlight, Moved;
    if steps != [] {
      var init := steps[..|steps| - 1];
      AdvancedNeverRaises(sys, init);
      AdvanceNeverRaises(Advanced(sys, init), steps[|steps| - 1]);
    }
  }

  predicate IsInFlight(s: Slot) {
    s.disk && (s.phase.Starting? || s.phase.Counted?)
  }

  lemma {:induction false} NoneInFlight(slots: seq<Slot>)
    requires forall i :: 0 <= i < |slots| ==> !IsInFlight(slots[i])
    ensures InFlight(slots) == 0
  {
    if slots != [] { NoneInFlight(slots[..|slots| - 1]); }
  }

  /** A step of a storage in flight moves its size towards the byte total and loses nothing. */
  lemma LandingStep(sys: System, i: nat)
    requires i < |sys.slots| && IsInFlight(sys.slots[i])
    ensures var s, r := sys.slots[i], Moved(0, sys, Advance(i));
            && r.disk.bytes + InFlight(r.slots) == sys.disk.bytes + InFlight(sys.slots)
            && r.slots == sys.slots[i := s.(phase := if s.phase.Starting? then Counted else Open)]
  {
    var s := sys.slots[i];
    InFlightAfterChange(sys.slots, i, s.(phase := if s.phase.Starting? then Counted else Open));
  }

  lemma {:induction false} AdvancedFrom(sys: System, i: nat, steps: seq<nat>)
    ensures Advanced(sys, [i] + steps) == Advanced(Moved(0, sys, Advance(i)), steps)
  {
    hide Moved;
    if steps == [] {
      assert ([i] + steps)[..0] == [] && [i] + steps == [i];
    } else {
      var n := |steps| - 1;
      assert ([i] + steps)[..n + 1] == [i] + steps[..n];
      AdvancedFrom(sys, i, steps[..n]);
    }
  }

  /** Everything in flight can land before anything else happens. */
  lemma {:induction false} EverythingCanLand(sys: System, n: nat) returns (steps: seq<nat>)
    requires n <= |sys.slots| && forall i :: n <= i < |sys.slots| ==> !IsInFlight(sys.slots[i])
    ensures Advanced(sys, steps).disk.bytes == sys.disk.bytes + InFlight(sys.slots)
    decreases n, if n > 0 && sys.slots[n - 1].phase.Starting? then 1 else 0
  {
    hide Moved, InFlight;
    if n == 0 {
      NoneInFlight(sys.slots);
      steps := [];
    } else if IsInFlight(sys.slots[n - 1]) {
      LandingStep(sys, n - 1);
      var r := Moved(0, sys, Advance(n - 1));
      var rest := EverythingCanLand(r, if sys.slots[n - 1].phase.Starting? then n else n - 1);
      AdvancedFrom(sys, n - 1, rest);
      steps := [n - 1] + rest;
    } else {
      steps := EverythingCanLand(sys, n - 1);
    }
  }

  /** The budget is safe if and only if what is stored and what is in flight fit into it together. */
  lemma SafeIffFits(limit: int, sys: System)
    requires Accounted(sys)
    ensures Safe(limit, sys) <==> sys.disk.bytes + InFlight(sys.slots) <= Budget(limit)
  {
    hide Accounted, InFlight, Advanced;
    if sys.disk.bytes + InFlight(sys.slots) <= Budget(limit) {
      forall steps
        ensures Advanced(sys, steps).disk.bytes <= Budget(limit)
      {
        AdvancedNeverRaises(sys, steps);
      }
    } else {
      var steps := EverythingCanLand(sys, |sys.slots|);
      assert Advanced(sys, steps).disk.bytes > Budget(limit);
    }
  }

  lemma CreationAddsInFlight(limit: int, sys: System, m: Move)
    requires m.Create?
    ensures var r := Moved(limit, sys, m);
            && r.disk == sys.disk
            && InFlight(r.slots) == InFlight(sys.slots) + if Passes(limit, sys, m) then m.size else 0
  {
    hide InFlight;
    InFlightAfterAppend(sys.slots, Slot(m.disk && Available(limit, sys, m.declared), m.size, Starting));
  }

  lemma InFlightAfterAppend(slots: seq<Slot>, s: Slot)
    ensures InFlight(slots + [s]) == InFlight(slots) + InFlightOf(s)
  {
    hide InFlightOf;
    assert (slots + [s])[..|slots|] == slots;
  }

  /** The move is a creation that gets to store on disk. */
  predicate Passes(limit: int, sys: System, m: Move) {
    m.Create? && m.disk && Available(limit, sys, m.declared)
  }

  /** EXACT CONDITION, for one creation. After any run, a creation that passes the check keeps the disk
      bytes within the budget, however the calls in progress go on, if and only if what is stored, what
      is in flight and what it really stores fit into the budget together. */
  lemma CreationKeepsBudgetIff(limit: int, moves: seq<Move>, declared: nat, size: nat)
    requires Available(limit, Run(limit, moves), declared)
    ensures var sys := Run(limit, moves);
            Safe(limit, Moved(limit, sys, Create(true, declared, size))) <==>
            sys.disk.bytes + InFlight(sys.slots) + size <= limit
  {
    hide Run, Moved, Safe, InFlight, Totals;
    var sys, m := Run(limit, moves), Create(true, declared, size);
    EveryRunIsAccounted(limit, moves);
    MoveKeepsAccounts(limit, sys, m);
    CreationAddsInFlight(limit, sys, m);
    SafeIffFits(limit, Moved(limit, sys, m));
  }

  /** The creation fits beside what is stored and in flight. */
  predicate Fits(limit: int, sys: System, m: Move) {
    Passes(limit, sys, m) ==> sys.disk.bytes + InFlight(sys.slots) + m.size <= limit
  }

  lemma MoveKeepsFitIff(limit: int, sys: System, m: Move)
    requires Accounted(sys) && sys.disk.bytes + InFlight(sys.slots) <= Budget(limit)
    ensures var r := Moved(limit, sys, m); r.disk.bytes + InFlight(r.slots) <= Budget(limit) <==> Fits(limit, sys, m)
  {
    hide InFlight, Totals;
    if m.Create? {
      CreationAddsInFlight(limit, sys, m);
    } else {
      AdvanceNeverRaises(sys, m.slot);
      assert Moved(limit, sys, m) == Moved(0, sys, m);
    }
  }

  /** The state after k moves is safe. */
  ghost predicate SafeAt(limit: int, moves: seq<Move>, k: nat)
    requires k <= |moves|
  {
    Safe(limit, Run(limit, moves[..k]))
  }

  /** The k-th move fits, if it is a creation that passes. */
  ghost predicate FitsAt(limit: int, moves: seq<Move>, k: nat)
    requires k < |moves|
  {
    Fits(limit, Run(limit, moves[..k]), moves[k])
  }

  ghost predicate SafeThroughout(limit: int, moves: seq<Move>) {
    forall k :: 0 <= k <= |moves| ==> SafeAt(limit, moves, k)
  }

  ghost predicate EveryCreationFits(limit: int, moves: seq<Move>) {
    forall k :: 0 <= k < |moves| ==> FitsAt(limit, moves, k)
  }

  /** EXACT CONDITION, over runs. The disk bytes stay within the budget at every moment of a run, however
      the calls in progress might go on, if and only if every creation that passes the check fits beside
      what is stored and in flight. */
  lemma {:induction false} BudgetIsKeptIff(limit: int, moves: seq<Move>)
    ensures SafeThroughout(limit, moves) <==> EveryCreationFits(limit, moves)
  {
    hide Moved, Safe, Fits, InFlight, Accounted, SafeThroughout, EveryCreationFits;
    EveryRunIsAccounted(limit, moves);
    SafeIffFits(limit, Run(limit, moves));
    if moves == [] {
      EmptyRun(limit);
    } else {
      var n := |moves| - 1;
      var init := moves[..n];
      BudgetIsKeptIff(limit, init);
      SafeSplits(limit, moves);
      FitsSplits(limit, moves);
      if SafeThroughout(limit, init) { EndsSafe(limit, init); }
      EveryRunIsAccounted(limit, init);
      SafeIffFits(limit, Run(limit, init));
      if Safe(limit, Run(limit, init)) { MoveKeepsFitIff(limit, Run(limit, init), moves[n]); }
    }
  }

  lemma EmptyRun(limit: int)
    ensures SafeThroughout(limit, []) && EveryCreationFits(limit, [])
  {
    hide Safe, Accounted;
    var none: seq<Move> := [];
    EveryRunIsAccounted(limit, none);
    SafeIffFits(limit, Run(limit, none));
    assert none[..0] == none;
  }

  lemma EndsSafe(limit: int, moves: seq<Move>)
    requires SafeThroughout(limit, moves)
    ensures Safe(limit, Run(limit, moves))
  {
    hide Run, Safe;
    assert SafeAt(limit, moves, |moves|);
    assert moves[..|moves|] == moves;
  }

  lemma SafeSplits(limit: int, moves: seq<Move>)
    requires moves != []
    ensures SafeThroughout(limit, moves) <==>
            SafeThroughout(limit, moves[..|moves| - 1]) && Safe(limit, Run(limit, moves))
  {
    hide Run, Safe;
    var n := |moves| - 1;
    forall k | 0 <= k <= n
      ensures SafeAt(limit, moves[..n], k) == SafeAt(limit, moves, k)
    {
      assert moves[..n][..k] == moves[..k];
    }
    assert SafeAt(limit, moves, n + 1) == Safe(limit, Run(limit, moves)) by { assert moves[..n + 1] == moves; }
  }

  lemma FitsSplits(limit: int, moves: seq<Move>)
    requires moves != []
    ensures var n := |moves| - 1;
            EveryCreationFits(limit, moves) <==>
            EveryCreationFits(limit, moves[..n]) && Fits(limit, Run(limit, moves[..n]), moves[n])
  {
    hide Run, Fits;
    var n := |moves| - 1;
    forall k | 0 <= k < n
      ensures FitsAt(limit, moves[..n], k) == FitsAt(limit, moves, k)
    {
      assert moves[..n][..k] == moves[..k];
    }
    assert FitsAt(limit, moves, n) == Fits(limit, Run(limit, moves[..n]), moves[n]);
  }

  // ----- Runs that exceed it --------------------------------------------------------------------------

  lemma RunAppend(limit: int, moves: seq<Move>, m: Move)
    ensures Run(limit, []) == EMPTY && Run(limit, moves + [m]) == Moved(limit, Run(limit, moves), m)
  {
    assert (moves + [m])[..|moves|] == moves;
  }

  /** One way to exceed the budget, by as much as the bound allows: of two creations that declare and
      store the whole of it the second passes the check while the first is in flight, and both are
      stored. */
  lemma BudgetCanBeExceeded(limit: nat)
    requires limit > 0
    ensures var c := Create(true, limit, limit);
            var run := [c] + [c] + [Advance(0)] + [Advance(0)] + [Advance(1)] + [Advance(1)];
            && Available(limit, Run(limit, [c]), limit) && InFlight(Run(limit, [c]).slots) == limit
            && Run(limit, run).disk.bytes == limit + limit
  {
    hide Run;
    var c := Create(true, limit, limit);
    var both := [c] + [c];
    var s := Slot(true, limit, Starting);
    RunAppend(limit, [], c);
    RunAppend(limit, [c], c);
    assert [] + [c] == [c];
    assert Run(limit, [c]) == System(Counters(0, 0), Counters(0, 0), [s]);
    assert [s][..0] == [];
    assert Run(limit, both) == System(Counters(0, 0), Counters(0, 0), [s, s]);
    RunAppend(limit, both, Advance(0));
    RunAppend(limit, both + [Advance(0)], Advance(0));
    assert Run(limit, both + [Advance(0)] + [Advance(0)])
        == System(Counters(1, limit), Counters(0, 0), [s.(phase := Open), s]);
    RunAppend(limit, both + [Advance(0)] + [Advance(0)], Advance(1));
    RunAppend(limit, both + [Advance(0)] + [Advance(0)] + [Advance(1)], Advance(1));
  }

  /** The other way: one creation alone that stores more than it declared. */
  lemma UndeclaredSizeExceedsBudget(limit: nat, size: nat)
    requires size > limit
    ensures Run(limit, [Create(true, limit, size)] + [Advance(0)] + [Advance(0)]).disk.bytes == size
  {
    hide Run;
    var c := Create(true, limit, size);
    var s := Slot(true, size, Starting);
    RunAppend(limit, [], c);
    assert [] + [c] == [c];
    assert Run(limit, [c]) == System(Counters(0, 0), Counters(0, 0), [s]);
    RunAppend(limit, [c], Advance(0));
    RunAppend(limit, [c] + [Advance(0)], Advance(0));
  }
}
