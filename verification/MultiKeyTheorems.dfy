/** What the multi-key actions guarantee: well-formed rows over every run, deletions that renumber
    faithfully, and the one deletion that does not take effect. */
module MultiKeyTheorems {
  import opened Text
  import opened MultiKey

  /** All indices of the map are key indices. */
  predicate InRange<V>(m: map<int, V>, n: int) {
    forall i :: i in m ==> 0 <= i < n
  }

  /** The size is the number of keys, the metadata belongs to keys, only disabled keys have a status
      entry, and every key can be stored on a line of its own. */
  predicate WellFormed(parse: string -> Option<seq<string>>, row: Row) {
    && row.size == |GetKeys(parse, row.key)| == CountKeys(parse, row.key)
    && PlainKeys(GetKeys(parse, row.key))
    && InRange(row.status, row.size) && InRange(row.times, row.size) && InRange(row.reasons, row.size)
    && forall i :: i in row.status ==> row.status[i] == MANUALLY_DISABLED || row.status[i] == AUTO_DISABLED
  }

  predicate ValidAction(action: Action) {
    action.ReportKey? ==> ENABLED <= action.newStatus <= AUTO_DISABLED
  }

  // ----- Single actions -----------------------------------------------------------------

  /** Storing under the same key text keeps the size and every status. */
  lemma UpdateInPlace(parse: string -> Option<seq<string>>, row: Row, status: map<int, int>, times: map<int, int>,
                      reasons: map<int, string>)
    requires WellFormed(parse, row) && InRange(status, row.size)
    ensures Updated(parse, row, row.key, status, times, reasons)
            == row.(status := status, times := times, reasons := reasons)
  {
    hide GetKeys, CountKeys, PlainKeys;
    SameEntries(status, Below(status, row.size));
  }

  lemma StoredCompaction(parse: string -> Option<seq<string>>, row: Row, c: Compacted)
    requires PlainKeys(c.keys) && c.keys != [] && WithinRange(c)
    ensures var r := Stored(parse, row, c);
            && GetKeys(parse, r.key) == c.keys && CountKeys(parse, r.key) == |c.keys|
            && r == row.(key := Join(c.keys, '\n'), size := |c.keys|,
                         status := c.status, times := c.times, reasons := c.reasons)
  {
    hide GetKeys, CountKeys, PlainKeys;
    PlainKeysReadBack(parse, c.keys);
    SameEntries(c.status, Below(c.status, |c.keys|));
  }

  lemma {:induction false} CompactKeepsShape(row: Row, keys: seq<string>, plan: Plan, n: nat)
    requires n <= |keys| && PlainKeys(keys)
    requires forall i :: i in row.status ==> row.status[i] == MANUALLY_DISABLED || row.status[i] == AUTO_DISABLED
    ensures var c := Compact(row, keys, plan, n);
            && PlainKeys(c.keys)
            && forall k :: k in c.status ==> c.status[k] == MANUALLY_DISABLED || c.status[k] == AUTO_DISABLED
  {
    hide PlainKey, Survives, KeepsMetadata;
    if n > 0 { CompactKeepsShape(row, keys, plan, n - 1); }
  }

  lemma DeletionKeepsWellFormed(parse: string -> Option<seq<string>>, row: Row, plan: Plan)
    requires WellFormed(parse, row)
    requires Compact(row, GetKeys(parse, row.key), plan, row.size).keys != []
    ensures WellFormed(parse, Stored(parse, row, Compact(row, GetKeys(parse, row.key), plan, row.size)))
  {
    hide GetKeys, CountKeys, PlainKeys, Compact, Stored;
    var keys := GetKeys(parse, row.key);
    CompactKeepsShape(row, keys, plan, row.size);
    CompactCarriesOver(row, keys, plan, row.size);
    StoredCompaction(parse, row, Compact(row, keys, plan, row.size));
  }

  /** Deleting every key stores nothing: the empty text leaves the old keys, all enabled again. */
  lemma EmptyDeletionReenables(parse: string -> Option<seq<string>>, row: Row, plan: Plan)
    requires WellFormed(parse, row)
    requires Compact(row, GetKeys(parse, row.key), plan, row.size).keys == []
    ensures Stored(parse, row, Compact(row, GetKeys(parse, row.key), plan, row.size))
            == row.(status := map[], times := map[], reasons := map[])
  {
    hide GetKeys, CountKeys, PlainKeys, Compact;
    var keys := GetKeys(parse, row.key);
    var c := Compact(row, keys, plan, row.size);
    CompactCarriesOver(row, keys, plan, row.size);
    SameEntries(c.times, map[]);
    SameEntries(c.reasons, map[]);
    SameEntries(Below(c.status, row.size), map[]);
  }

  lemma ReportKeepsWellFormed(parse: string -> Option<seq<string>>, row: Row, usingKey: string, newStatus: int,
                              reason: string, now: int)
    requires WellFormed(parse, row) && ENABLED <= newStatus <= AUTO_DISABLED
    ensures WellFormed(parse, Reported(parse, row, usingKey, newStatus, reason, now))
  {
    hide GetKeys, CountKeys, PlainKeys, IndexOf;
    if row.channelStatus != newStatus && row.size > 0 {
      var k := IndexOf(GetKeys(parse, row.key), usingKey);
      NotedKeepsWellFormed(parse, row, k, newStatus, reason, now);
    }
  }

  lemma NotedKeepsWellFormed(parse: string -> Option<seq<string>>, row: Row, k: nat, newStatus: int,
                             reason: string, now: int)
    requires WellFormed(parse, row) && ENABLED <= newStatus <= AUTO_DISABLED && k < row.size
    ensures WellFormed(parse, row.(status := row.status - {k}))
    ensures newStatus != ENABLED ==>
              WellFormed(parse, row.(status := row.status[k := newStatus],
                                     reasons := row.reasons[k := reason], times := row.times[k := now]))
  {
    hide GetKeys, CountKeys, PlainKeys;
  }

  /** Disabling and enabling change only statuses, times and reasons of keys that exist. */
  lemma SwitchKeepsWellFormed(parse: string -> Option<seq<string>>, row: Row, action: Action)
    requires WellFormed(parse, row) && (action.DisableKey? || action.EnableKey?)
    ensures WellFormed(parse, Act(parse, row, action).0)
  {
    hide GetKeys, CountKeys, PlainKeys, Compact, Stored, Updated, Reported, EnabledBelow, OffBelow;
    if action.index.Some? && 0 <= action.index.value < row.size {
      var k := action.index.value;
      if action.DisableKey? {
        UpdateInPlace(parse, row, row.status[k := MANUALLY_DISABLED], row.times, row.reasons);
      } else {
        UpdateInPlace(parse, row, row.status - {k}, row.times - {k}, row.reasons - {k});
      }
    }
  }

  lemma SwitchAllKeepsWellFormed(parse: string -> Option<seq<string>>, row: Row, action: Action)
    requires WellFormed(parse, row) && (action.EnableAll? || action.DisableAll?)
    ensures WellFormed(parse, Act(parse, row, action).0)
  {
    hide GetKeys, CountKeys, PlainKeys, Compact, Stored, Updated, Reported, EnabledBelow, OffBelow, AllOff;
    if action.EnableAll? {
      UpdateInPlace(parse, row, map[], map[], map[]);
    } else {
      OffStatuses(row);
      UpdateInPlace(parse, row, AllOff(row), row.times, row.reasons);
    }
  }

  lemma DeleteKeepsWellFormed(parse: string -> Option<seq<string>>, row: Row, action: Action)
    requires WellFormed(parse, row) && (action.DeleteKey? || action.DeleteDisabledKeys?)
    ensures WellFormed(parse, Act(parse, row, action).0)
  {
    hide GetKeys, CountKeys, PlainKeys, Compact, Stored, Updated, Reported, EnabledBelow, OffBelow;
    var keys := GetKeys(parse, row.key);
    if action.DeleteKey? {
      if action.index.Some? && Compact(row, keys, DeleteOne(action.index.value), row.size).keys != [] {
        DeletionKeepsWellFormed(parse, row, DeleteOne(action.index.value));
      }
    } else if Compact(row, keys, DeleteAutoDisabled, row.size).keys != [] {
      DeletionKeepsWellFormed(parse, row, DeleteAutoDisabled);
    } else {
      EmptyDeletionReenables(parse, row, DeleteAutoDisabled);
    }
  }

  lemma ActKeepsWellFormed(parse: string -> Option<seq<string>>, row: Row, action: Action)
    requires WellFormed(parse, row) && ValidAction(action)
    ensures WellFormed(parse, Act(parse, row, action).0)
  {
    hide WellFormed, Compact, Stored, Updated, Reported, EnabledBelow;
    if action.DisableKey? || action.EnableKey? {
      SwitchKeepsWellFormed(parse, row, action);
    } else if action.EnableAll? || action.DisableAll? {
      SwitchAllKeepsWellFormed(parse, row, action);
    } else if action.ReportKey? {
      ReportKeepsWellFormed(parse, row, action.usingKey, action.newStatus, action.reason, action.now);
    } else {
      DeleteKeepsWellFormed(parse, row, action);
    }
  }

  lemma OffStatuses(row: Row)
    requires InRange(row.status, row.size)
    requires forall i :: i in row.status ==> row.status[i] == MANUALLY_DISABLED || row.status[i] == AUTO_DISABLED
    ensures InRange(AllOff(row), row.size)
    ensures forall i :: i in AllOff(row) ==> AllOff(row)[i] == MANUALLY_DISABLED || AllOff(row)[i] == AUTO_DISABLED
    ensures forall i :: 0 <= i < row.size ==> i in AllOff(row)
  {
  }

  // ----- Every run ------------------------------------------------------------------------

  function Run(parse: string -> Option<seq<string>>, row: Row, actions: seq<Action>): Row {
    if actions == [] then row
    else Act(parse, Run(parse, row, actions[..|actions| - 1]), actions[|actions| - 1]).0
  }

  /** SAFETY OVER RUNS. Along every sequence of actions and reports a well-formed row stays so: the
      size is the number of keys, all metadata belongs to keys, statuses are 1, 2 or 3. */
  lemma {:induction false} RunsKeepWellFormed(parse: string -> Option<seq<string>>, row: Row, actions: seq<Action>)
    requires WellFormed(parse, row) && forall i :: 0 <= i < |actions| ==> ValidAction(actions[i])
    ensures WellFormed(parse, Run(parse, row, actions))
    ensures forall i :: ENABLED <= StatusAt(Run(parse, row, actions).status, i) <= AUTO_DISABLED
  {
    hide Act;
    if actions != [] {
      RunsKeepWellFormed(parse, row, actions[..|actions| - 1]);
      ActKeepsWellFormed(parse, Run(parse, row, actions[..|actions| - 1]), actions[|actions| - 1]);
    }
  }

  // ----- What single actions achieve ----------------------------------------------------------

  /** Disabling a key gives it status 2 and touches nothing else; a missing or wrong index is refused. */
  lemma DisableKeyDisablesIt(parse: string -> Option<seq<string>>, row: Row, index: Option<int>)
    requires WellFormed(parse, row)
    ensures var (r, outcome) := Act(parse, row, DisableKey(index));
            if index.None? then (r, outcome) == (row, IndexMissing)
            else if index.value < 0 || row.size <= index.value then (r, outcome) == (row, IndexOutOfRange)
            else
              && outcome == Done(1) && StatusAt(r.status, index.value) == 2
              && (forall i :: i != index.value ==> StatusAt(r.status, i) == StatusAt(row.status, i))
              && r == row.(status := r.status)
  {
    hide GetKeys, CountKeys, PlainKeys, Updated;
    if index.Some? && 0 <= index.value < row.size {
      UpdateInPlace(parse, row, row.status[index.value := MANUALLY_DISABLED], row.times, row.reasons);
    }
  }

  /** Enabling a key gives it status 1, drops its time and reason, and touches nothing else. */
  lemma EnableKeyEnablesIt(parse: string -> Option<seq<string>>, row: Row, index: Option<int>)
    requires WellFormed(parse, row)
    ensures var (r, outcome) := Act(parse, row, EnableKey(index));
            if index.None? then (r, outcome) == (row, IndexMissing)
            else if index.value < 0 || row.size <= index.value then (r, outcome) == (row, IndexOutOfRange)
            else
              && outcome == Done(1) && StatusAt(r.status, index.value) == 1
              && (forall i :: i != index.value ==> StatusAt(r.status, i) == StatusAt(row.status, i))
              && (forall i :: i in r.times <==> i in row.times && i != index.value)
              && (forall i :: i in r.times ==> r.times[i] == row.times[i])
              && (forall i :: i in r.reasons <==> i in row.reasons && i != index.value)
              && (forall i :: i in r.reasons ==> r.reasons[i] == row.reasons[i])
              && r == row.(status := r.status, times := r.times, reasons := r.reasons)
  {
    hide GetKeys, CountKeys, PlainKeys, Updated;
    if index.Some? && 0 <= index.value < row.size {
      var k := {index.value};
      UpdateInPlace(parse, row, row.status - k, row.times - k, row.reasons - k);
    }
  }

  /** Enabling all keys gives every key status 1, drops all times and reasons, and counts the disabled. */
  lemma EnableAllEnablesEveryKey(parse: string -> Option<seq<string>>, row: Row)
    requires WellFormed(parse, row)
    ensures var (r, outcome) := Act(parse, row, EnableAll);
            && (forall i :: StatusAt(r.status, i) == 1)
            && r == row.(status := map[], times := map[], reasons := map[]) && outcome == Done(|row.status|)
  {
    hide GetKeys, CountKeys, PlainKeys, Updated;
    UpdateInPlace(parse, row, map[], map[], map[]);
  }

  /** Disabling all keys gives every enabled key status 2 and leaves the disabled ones and everything else
      as they are; it reports how many were enabled, or that there was nothing to do. */
  lemma DisableAllLeavesNoneEnabled(parse: string -> Option<seq<string>>, row: Row, i: int)
    requires WellFormed(parse, row) && 0 <= i < row.size
    ensures var (r, outcome) := Act(parse, row, DisableAll);
            && StatusAt(r.status, i) == (if StatusAt(row.status, i) == 1 then 2 else StatusAt(row.status, i))
            && StatusAt(r.status, i) != 1
            && r == row.(status := r.status)
            && outcome == if EnabledIndices(row) == {} then NothingToDo else Done(|EnabledIndices(row)|)
  {
    hide GetKeys, CountKeys, PlainKeys, Updated;
    OffStatuses(row);
    UpdateInPlace(parse, row, AllOff(row), row.times, row.reasons);
    NoneEnabledBelow(row, row.size, i);
    EnabledAreCounted(row, row.size);
  }

  /** Without keys there is nothing to disable. */
  lemma DisableAllOfNothing(parse: string -> Option<seq<string>>, row: Row)
    requires row.size <= 0
    ensures Act(parse, row, DisableAll) == (row, NothingToDo)
  {
  }

  /** Deleting a key refuses a missing index, an index out of range, and the last key; otherwise it stores
      the others. */
  lemma DeleteKeyOutcomes(parse: string -> Option<seq<string>>, row: Row, index: Option<int>)
    requires WellFormed(parse, row)
    ensures Act(parse, row, DeleteKey(index)) ==
            if index.None? then (row, IndexMissing)
            else if index.value < 0 || row.size <= index.value then (row, IndexOutOfRange)
            else if row.size == 1 then (row, LastKey)
            else (Stored(parse, row, Survivors(parse, row, DeleteOne(index.value))), Done(1))
  {
    hide GetKeys, CountKeys, PlainKeys, Compact, Stored;
    if index.Some? && 0 <= index.value < row.size {
      var plan := DeleteOne(index.value);
      CompactCarriesOver(row, GetKeys(parse, row.key), plan, row.size);
      FullRankMeansAllSurvive(row, plan, row.size);
      if row.size > 1 { assert Survives(row, plan, if index.value == 0 then 1 else 0); }
    }
  }

  /** Deleting the auto-disabled keys of a row that has none does nothing. */
  lemma NoneAutoDisabledNothingToDo(parse: string -> Option<seq<string>>, row: Row)
    requires forall i :: 0 <= i < |GetKeys(parse, row.key)| ==> StatusAt(row.status, i) != 3
    ensures Act(parse, row, DeleteDisabledKeys) == (row, NothingToDo)
  {
    hide GetKeys, Compact, Stored;
    var keys := GetKeys(parse, row.key);
    CompactCarriesOver(row, keys, DeleteAutoDisabled, |keys|);
    FullRankMeansAllSurvive(row, DeleteAutoDisabled, |keys|);
  }

  function EnabledIndices(row: Row): set<nat> {
    EnabledUpTo(row, if row.size < 0 then 0 else row.size)
  }

  function EnabledUpTo(row: Row, n: nat): set<nat> {
    set i: nat | i < n && StatusAt(row.status, i) == 1
  }

  lemma {:induction false} EnabledAreCounted(row: Row, n: nat)
    ensures EnabledBelow(row, n) == |EnabledUpTo(row, n)|
  {
    if n > 0 {
      EnabledAreCounted(row, n - 1);
      var before := EnabledUpTo(row, n - 1);
      if StatusAt(row.status, n - 1) == 1 {
        assert EnabledUpTo(row, n) == before + {n - 1};
      } else {
        assert EnabledUpTo(row, n) == before;
      }
    }
  }

  lemma {:induction false} NoneEnabledBelow(row: Row, n: nat, i: nat)
    requires i < n
    ensures EnabledBelow(row, n) == 0 ==> StatusAt(row.status, i) != ENABLED
  {
    if i < n - 1 { NoneEnabledBelow(row, n - 1, i); }
  }

  ghost predicate IsRankOfSurvivor(row: Row, plan: Plan, n: nat, k: nat) {
    exists i :: 0 <= i < n && Survives(row, plan, i) && Rank(row, plan, i) == k
  }

  /** The row is the survivors, in order: each at its rank with its status, and with its time and reason
      if it is disabled; the size is their number, and each new index comes from exactly one of them. */
  ghost predicate Renumbers(parse: string -> Option<seq<string>>, row: Row, plan: Plan, r: Row) {
    var keys := GetKeys(parse, row.key);
    var after := Compacted(GetKeys(parse, r.key), r.status, r.times, r.reasons);
    && r.size == |after.keys| == Rank(row, plan, |keys|)
    && WithinRange(after)
    && (forall i :: 0 <= i < |keys| && Survives(row, plan, i) ==> CarriedOver(row, keys, plan, after, i))
    && (forall i, j :: 0 <= i < j < |keys| && Survives(row, plan, i) && Survives(row, plan, j) ==>
          Rank(row, plan, i) < Rank(row, plan, j))
    && (forall k :: 0 <= k < r.size ==> IsRankOfSurvivor(row, plan, |keys|, k))
  }

  /** The keys can be stored one per line: the text does not decode as an array, no key holds a newline
      and neither end is blank. */
  predicate Storable(parse: string -> Option<seq<string>>, keys: seq<string>) {
    && keys != [] && ArrayKeys(parse, Join(keys, '\n')).None?
    && keys[0] != "" && keys[|keys| - 1] != "" && forall i :: 0 <= i < |keys| ==> '\n' !in keys[i]
  }

  lemma StorableReadsBack(parse: string -> Option<seq<string>>, keys: seq<string>)
    requires Storable(parse, keys)
    ensures var text := Join(keys, '\n');
            text != "" && GetKeys(parse, text) == keys && CountKeys(parse, text) == |keys|
  {
    hide Lines, ArrayKeys;
    LinesReadBackIff(keys);
  }

  /** COMPACTION. A deletion whose survivors can be stored renumbers faithfully, whatever the row. */
  lemma DeletionRenumbers(parse: string -> Option<seq<string>>, row: Row, plan: Plan)
    requires Storable(parse, Survivors(parse, row, plan).keys)
    ensures Renumbers(parse, row, plan, Stored(parse, row, Survivors(parse, row, plan)))
    ensures GetKeys(parse, Stored(parse, row, Survivors(parse, row, plan)).key) == Survivors(parse, row, plan).keys
  {
    hide GetKeys, CountKeys, Compact, CarriedOver, Survives, Storable;
    var keys, c := GetKeys(parse, row.key), Survivors(parse, row, plan);
    StorableReadsBack(parse, c.keys);
    CompactCarriesOver(row, keys, plan, |keys|);
    SameEntries(c.status, Below(c.status, |c.keys|));
    forall i, j | 0 <= i < j < |keys| && Survives(row, plan, i) && Survives(row, plan, j)
      ensures Rank(row, plan, i) < Rank(row, plan, j)
    {
      RankMonotone(row, plan, i, j);
    }
    forall k | 0 <= k < Rank(row, plan, |keys|)
      ensures IsRankOfSurvivor(row, plan, |keys|, k)
    {
      var i := EveryNewIndexIsARank(row, plan, |keys|, k);
    }
  }

  /** What a deletion keeps. */
  function Survivors(parse: string -> Option<seq<string>>, row: Row, plan: Plan): Compacted {
    Compact(row, GetKeys(parse, row.key), plan, |GetKeys(parse, row.key)|)
  }

  /** The survivors of a well-formed row can be stored. */
  lemma PlainSurvivorsAreStorable(parse: string -> Option<seq<string>>, row: Row, plan: Plan)
    requires WellFormed(parse, row) && Survivors(parse, row, plan).keys != []
    ensures Storable(parse, Survivors(parse, row, plan).keys)
  {
    hide GetKeys, CountKeys, Compact, BracketFirst, OpensArray;
    var keys := GetKeys(parse, row.key);
    var c := Survivors(parse, row, plan);
    CompactKeepsShape(row, keys, plan, |keys|);
    forall i | 0 <= i < |c.keys|
      ensures !BracketFirst(c.keys[i])
    {
      OpensArrayIsBracketFirst(c.keys[i]);
    }
    BracketFirstOfJoin(c.keys);
    OpensArrayIsBracketFirst(Join(c.keys, '\n'));
  }

  lemma {:induction false} FullRankMeansAllSurvive(row: Row, plan: Plan, n: nat)
    ensures Rank(row, plan, n) <= n
    ensures Rank(row, plan, n) == n <==> forall i :: 0 <= i < n ==> Survives(row, plan, i)
    ensures Rank(row, plan, n) == 0 <==> forall i :: 0 <= i < n ==> !Survives(row, plan, i)
  {
    hide Survives;
    if n > 0 { FullRankMeansAllSurvive(row, plan, n - 1); }
  }

  /** After deleting the disabled keys none is auto-disabled. */
  lemma DeleteDisabledLeavesNoneAutoDisabled(parse: string -> Option<seq<string>>, row: Row, k: int)
    requires WellFormed(parse, row)
    ensures var r := Act(parse, row, DeleteDisabledKeys).0;
            0 <= k < r.size ==> StatusAt(r.status, k) != AUTO_DISABLED
  {
    hide GetKeys, CountKeys, PlainKeys, Compact, Stored;
    var keys := GetKeys(parse, row.key);
    var c := Compact(row, keys, DeleteAutoDisabled, row.size);
    CompactCarriesOver(row, keys, DeleteAutoDisabled, row.size);
    FullRankMeansAllSurvive(row, DeleteAutoDisabled, row.size);
    if c.keys == [] {
      EmptyDeletionReenables(parse, row, DeleteAutoDisabled);
    } else if |c.keys| < row.size {
      PlainSurvivorsAreStorable(parse, row, DeleteAutoDisabled);
      DeletionRenumbers(parse, row, DeleteAutoDisabled);
      if 0 <= k < |c.keys| {
        var i := EveryNewIndexIsARank(row, DeleteAutoDisabled, row.size, k);
        assert Survives(row, DeleteAutoDisabled, i);
        var r := Stored(parse, row, c);
        var after := Compacted(GetKeys(parse, r.key), r.status, r.times, r.reasons);
        assert CarriedOver(row, keys, DeleteAutoDisabled, after, i);
      }
    } else if 0 <= k < row.size {
      assert Survives(row, DeleteAutoDisabled, k);
    }
  }

  /** In a well-formed row with some key auto-disabled, the deletion removes exactly those keys if and
      only if some other key is left; otherwise it reports success, keeps every key and enables them
      all. */
  lemma PlainDeleteDisabledTakesEffectIff(parse: string -> Option<seq<string>>, row: Row)
    requires WellFormed(parse, row)
    requires exists i :: 0 <= i < row.size && StatusAt(row.status, i) == AUTO_DISABLED
    ensures var keys := GetKeys(parse, row.key);
            var survivors := Compact(row, keys, DeleteAutoDisabled, row.size).keys;
            var (r, outcome) := Act(parse, row, DeleteDisabledKeys);
            && |survivors| < row.size && outcome == Done(row.size - |survivors|)
            && (GetKeys(parse, r.key) == survivors <==>
                  exists i :: 0 <= i < row.size && StatusAt(row.status, i) != AUTO_DISABLED)
            && ((forall i :: 0 <= i < row.size ==> StatusAt(row.status, i) == AUTO_DISABLED) ==>
                  r == row.(status := map[], times := map[], reasons := map[]) && outcome == Done(row.size))
  {
    hide GetKeys, CountKeys, PlainKeys, Compact, Stored;
    var keys := GetKeys(parse, row.key);
    var c := Compact(row, keys, DeleteAutoDisabled, row.size);
    CompactCarriesOver(row, keys, DeleteAutoDisabled, row.size);
    CompactKeepsShape(row, keys, DeleteAutoDisabled, row.size);
    FullRankMeansAllSurvive(row, DeleteAutoDisabled, row.size);
    var i :| 0 <= i < row.size && StatusAt(row.status, i) == AUTO_DISABLED;
    assert !Survives(row, DeleteAutoDisabled, i);
    if c.keys == [] {
      EmptyDeletionReenables(parse, row, DeleteAutoDisabled);
      forall j | 0 <= j < row.size
        ensures StatusAt(row.status, j) == AUTO_DISABLED
      {
        assert !Survives(row, DeleteAutoDisabled, j);
      }
      assert Act(parse, row, DeleteDisabledKeys).0.key == row.key;
      assert |keys| > 0;
    } else {
      StoredCompaction(parse, row, c);
      var j :| 0 <= j < row.size && Survives(row, DeleteAutoDisabled, j);
      assert StatusAt(row.status, j) != AUTO_DISABLED;
    }
  }

  /** Such a row: the deletion of a lone disabled key reports one deletion and enables the key. */
  lemma LoneDisabledKeyIsEnabled(parse: string -> Option<seq<string>>)
    ensures var row := Row("a", 1, map[0 := AUTO_DISABLED], map[], map[], ENABLED);
            Act(parse, row, DeleteDisabledKeys) == (row.(status := map[]), Done(1))
  {
    hide GetKeys, CountKeys, Compact, Stored, PlainKey, OpensArray;
    var row := Row("a", 1, map[0 := AUTO_DISABLED], map[], map[], ENABLED);
    LoneKey(parse);
    assert StatusAt(row.status, 0) == AUTO_DISABLED;
    PlainDeleteDisabledTakesEffectIff(parse, row);
  }

  lemma LoneKey(parse: string -> Option<seq<string>>)
    ensures GetKeys(parse, "a") == ["a"] && CountKeys(parse, "a") == 1 && PlainKey("a")
  {
    hide Lines, TrimSpace;
    OpensArrayIsBracketFirst("a");
    PlainKeysReadBack(parse, ["a"]);
    assert Join(["a"], '\n') == "a";
  }

  /** A faithfully renumbered row reads as the survivors. */
  lemma RenumberedReadsAsSurvivors(parse: string -> Option<seq<string>>, row: Row, plan: Plan, r: Row)
    requires Renumbers(parse, row, plan, r)
    ensures GetKeys(parse, r.key) == Survivors(parse, row, plan).keys
  {
    hide GetKeys, Compact, Survives, KeepsMetadata;
    var keys, c := GetKeys(parse, row.key), Survivors(parse, row, plan);
    CompactCarriesOver(row, keys, plan, |keys|);
    forall k | 0 <= k < r.size
      ensures GetKeys(parse, r.key)[k] == c.keys[k]
    {
      var i := EveryNewIndexIsARank(row, plan, |keys|, k);
      assert CarriedOver(row, keys, plan, c, i);
    }
  }

  /** A decoded array is longer than its elements: it has two brackets and a comma between any two. */
  ghost predicate DelimitsElements(parse: string -> Option<seq<string>>) {
    forall text :: parse(text).Some? ==> |text| >= TotalLength(parse(text).value) + |parse(text).value| + 1
  }

  function TotalLength(keys: seq<string>): nat {
    if keys == [] then 0 else |keys[0]| + TotalLength(keys[1..])
  }

  lemma {:induction false} JoinLength(keys: seq<string>)
    requires keys != []
    ensures |Join(keys, '\n')| == TotalLength(keys) + |keys| - 1
  {
    if |keys| > 1 { JoinLength(keys[1..]); }
  }

  /** So keys joined by newlines never decode to themselves. */
  lemma JoinedNeverDecodesToItself(parse: string -> Option<seq<string>>, keys: seq<string>)
    requires DelimitsElements(parse) && keys != []
    ensures ArrayKeys(parse, Join(keys, '\n')) != Some(keys)
  {
    hide Join;
    JoinLength(keys);
    TrimShortens(Join(keys, '\n'));
  }

  lemma TrimShortens(text: string)
    ensures |TrimSpace(text)| <= |text|
  {
    TrimLeftShortens(text);
    TrimRightShortens(TrimLeft(text, IsSpace));
  }

  lemma {:induction false} TrimLeftShortens(text: string)
    ensures |TrimLeft(text, IsSpace)| <= |text|
  {
    if text != "" { TrimLeftShortens(text[1..]); }
  }

  lemma {:induction false} TrimRightShortens(text: string)
    ensures |TrimRight(text, IsSpace)| <= |text|
  {
    if text != "" { TrimRightShortens(text[..|text| - 1]); }
  }

  /** EXACT CONDITION, for every row, key text and plan. A deletion that removes some keys and leaves
      some renumbers faithfully if and only if the survivors can be stored one per line. */
  lemma DeletionRenumbersIff(parse: string -> Option<seq<string>>, row: Row, plan: Plan)
    requires DelimitsElements(parse) || ArrayKeys(parse, Join(Survivors(parse, row, plan).keys, '\n')).None?
    requires 0 < |Survivors(parse, row, plan).keys| < |GetKeys(parse, row.key)|
    ensures Renumbers(parse, row, plan, Stored(parse, row, Survivors(parse, row, plan)))
       <==> Storable(parse, Survivors(parse, row, plan).keys)
  {
    hide Lines, Compact, Renumbers, ArrayKeys, DelimitsElements;
    var c := Survivors(parse, row, plan);
    var r := Stored(parse, row, c);
    if Storable(parse, c.keys) {
      DeletionRenumbers(parse, row, plan);
    } else {
      if DelimitsElements(parse) { JoinedNeverDecodesToItself(parse, c.keys); }
      LinesReadBackIff(c.keys);
      assert GetKeys(parse, r.key) != c.keys;
      if Renumbers(parse, row, plan, r) { RenumberedReadsAsSurvivors(parse, row, plan, r); }
    }
  }

  /** EXACT CONDITION, for every row with some key auto-disabled. Deleting those keys reports success; it
      renumbers the others faithfully if and only if there are others and they can be stored one per
      line. With no others it keeps every key and drops all metadata, which enables them. */
  lemma DeleteDisabledTakesEffectIff(parse: string -> Option<seq<string>>, row: Row)
    requires DelimitsElements(parse)
             || ArrayKeys(parse, Join(Survivors(parse, row, DeleteAutoDisabled).keys, '\n')).None?
    requires exists i :: 0 <= i < |GetKeys(parse, row.key)| && StatusAt(row.status, i) == AUTO_DISABLED
    ensures var keys, c := GetKeys(parse, row.key), Survivors(parse, row, DeleteAutoDisabled);
            var (r, outcome) := Act(parse, row, DeleteDisabledKeys);
            && |c.keys| < |keys| && outcome == Done(|keys| - |c.keys|)
            && (Renumbers(parse, row, DeleteAutoDisabled, r) <==> Storable(parse, c.keys))
            && (c.keys == [] ==>
                  GetKeys(parse, r.key) == keys && r.status == map[] && r.times == map[] && r.reasons == map[])
  {
    hide GetKeys, CountKeys, Compact, Renumbers, ArrayKeys, DelimitsElements;
    var keys, c := GetKeys(parse, row.key), Survivors(parse, row, DeleteAutoDisabled);
    var i :| 0 <= i < |keys| && StatusAt(row.status, i) == AUTO_DISABLED;
    CompactCarriesOver(row, keys, DeleteAutoDisabled, |keys|);
    FullRankMeansAllSurvive(row, DeleteAutoDisabled, |keys|);
    assert !Survives(row, DeleteAutoDisabled, i);
    var r := Stored(parse, row, c);
    if c.keys == [] {
      SameEntries(c.times, map[]);
      SameEntries(c.reasons, map[]);
      SameEntries(r.status, map[]);
      if Renumbers(parse, row, DeleteAutoDisabled, r) {
        RenumberedReadsAsSurvivors(parse, row, DeleteAutoDisabled, r);
      }
    } else {
      DeletionRenumbersIff(parse, row, DeleteAutoDisabled);
    }
  }

  /** A row that fails: array elements may span lines. Deleting the second key stores three lines, so
      the disabled last key is enabled again and a line of the first carries its status. */
  lemma ArrayKeySpansLines(parse: string -> Option<seq<string>>)
    requires parse("[{\n},1,2]") == Some(["{\n}", "1", "2"])
    ensures var row := Row("[{\n},1,2]", 3, map[2 := AUTO_DISABLED], map[], map[], ENABLED);
            var (r, outcome) := Act(parse, row, DeleteKey(Some(1)));
            && GetKeys(parse, row.key) == ["{\n}", "1", "2"]
            && outcome == Done(1) && GetKeys(parse, r.key) == ["{", "}", "2"] && r.size == 3
            && StatusAt(r.status, 1) == AUTO_DISABLED && StatusAt(r.status, 2) == ENABLED
  {
    hide Lines, OpensArray, Compact, TrimSpace, TrimLeft, TrimRight;
    var text := "[{\n},1,2]";
    var row := Row(text, 3, map[2 := AUTO_DISABLED], map[], map[], ENABLED);
    BracketTextOpensArray();
    SpanningKeysStayLines();
    CompactWithoutSecond(row);
    var c := Compact(row, ["{\n}", "1", "2"], DeleteOne(1), 3);
    assert Join(c.keys, '\n') == "{\n}\n2";
    assert 1 in Below(c.status, 3) && 2 !in Below(c.status, 3);
  }

  lemma BracketTextOpensArray()
    ensures TrimSpace("[{\n},1,2]") == "[{\n},1,2]" && OpensArray("[{\n},1,2]")
  {
    hide TrimSpace;
    TrimSpaceFixes("[{\n},1,2]");
  }

  lemma SpanningKeysStayLines()
    ensures !OpensArray("{\n}\n2") && Lines("{\n}\n2") == ["{", "}", "2"]
  {
    hide Lines, OpensArray;
    OpensArrayIsBracketFirst("{\n}\n2");
    LinesReadBackIff(["{", "}", "2"]);
    assert Join(["{", "}", "2"], '\n') == "{\n}\n2";
  }

  lemma CompactWithoutSecond(row: Row)
    requires row.status == map[2 := AUTO_DISABLED] && row.times == map[] && row.reasons == map[]
    ensures var c := Compact(row, ["{\n}", "1", "2"], DeleteOne(1), 3);
            c.keys == ["{\n}", "2"] && c.status == map[1 := AUTO_DISABLED]
  {
    var keys := ["{\n}", "1", "2"];
    assert Compact(row, keys, DeleteOne(1), 1) == Compacted(["{\n}"], map[], map[], map[]);
    assert Compact(row, keys, DeleteOne(1), 2) == Compacted(["{\n}"], map[], map[], map[]);
  }

  /** Another: a key that is an array text of its own. Left alone it decodes, and reads back as its
      element. */
  lemma ArrayTextIsDecoded(parse: string -> Option<seq<string>>)
    requires parse("[1]") == Some(["1"])
    ensures var row := Row("x\n[1]", 2, map[], map[], map[], ENABLED);
            var (r, outcome) := Act(parse, row, DeleteKey(Some(0)));
            GetKeys(parse, row.key) == ["x", "[1]"] && outcome == Done(1) && GetKeys(parse, r.key) == ["1"]
  {
    hide Lines, OpensArray, Compact, TrimSpace;
    var row := Row("x\n[1]", 2, map[], map[], map[], ENABLED);
    ArrayTextTrims();
    ArrayTextAfterKey();
    CompactToLast(row);
    var c := Compact(row, ["x", "[1]"], DeleteOne(0), 2);
    assert Join(c.keys, '\n') == "[1]";
  }

  lemma ArrayTextTrims()
    ensures TrimSpace("[1]") == "[1]" && OpensArray("[1]")
  {
    hide TrimSpace;
    TrimSpaceFixes("[1]");
  }

  lemma ArrayTextAfterKey()
    ensures !OpensArray("x\n[1]") && Lines("x\n[1]") == ["x", "[1]"]
  {
    hide Lines, OpensArray;
    OpensArrayIsBracketFirst("x\n[1]");
    LinesReadBackIff(["x", "[1]"]);
    assert Join(["x", "[1]"], '\n') == "x\n[1]";
  }

  lemma CompactToLast(row: Row)
    requires row.status == map[] && row.times == map[] && row.reasons == map[]
    ensures Compact(row, ["x", "[1]"], DeleteOne(0), 2) == Compacted(["[1]"], map[], map[], map[])
  {
    assert Compact(row, ["x", "[1]"], DeleteOne(0), 1) == Compacted([], map[], map[], map[]);
  }

  /** Another: with a blank key between two others, deleting the first one leaves a leading newline,
      which is trimmed, and the last key moves up into the blank key's place. */
  lemma BlankKeyShiftsIndices(parse: string -> Option<seq<string>>)
    ensures var row := Row("a\n\nb", 3, map[1 := MANUALLY_DISABLED], map[], map[], ENABLED);
            var (r, outcome) := Act(parse, row, DeleteKey(Some(0)));
            && GetKeys(parse, row.key) == ["a", "", "b"] && StatusAt(row.status, 2) == ENABLED
            && outcome == Done(1) && GetKeys(parse, r.key) == ["b"] && StatusAt(r.status, 0) == MANUALLY_DISABLED
  {
    hide Lines, ArrayKeys, Compact;
    var row := Row("a\n\nb", 3, map[1 := MANUALLY_DISABLED], map[], map[], ENABLED);
    NotAnArray(parse, "a\n\nb");
    NotAnArray(parse, "\nb");
    LinesOfThree();
    LinesOfTwo();
    CompactWithoutFirst(row);
    var c := Compact(row, ["a", "", "b"], DeleteOne(0), 3);
    assert Join(c.keys, '\n') == "\nb";
    assert 0 in Below(c.status, 1);
  }

  lemma CompactWithoutFirst(row: Row)
    requires row.status == map[1 := MANUALLY_DISABLED] && row.times == map[] && row.reasons == map[]
    ensures var c := Compact(row, ["a", "", "b"], DeleteOne(0), 3);
            c.keys == ["", "b"] && c.status == map[0 := MANUALLY_DISABLED]
  {
    var keys := ["a", "", "b"];
    assert Compact(row, keys, DeleteOne(0), 1) == Compacted([], map[], map[], map[]);
    assert Compact(row, keys, DeleteOne(0), 2) == Compacted([""], map[0 := MANUALLY_DISABLED], map[], map[]);
  }

  lemma NotAnArray(parse: string -> Option<seq<string>>, text: string)
    requires text == "a\n\nb" || text == "\nb"
    ensures ArrayKeys(parse, text).None?
  {
    OpensArrayIsBracketFirst(text);
    assert text == "\nb" ==> text[1..] == "b";
  }

  lemma LinesOfThree()
    ensures Lines("a\n\nb") == ["a", "", "b"]
  {
    LinesReadBackIff(["a", "", "b"]);
    assert Join(["a", "", "b"], '\n') == "a\n\nb";
  }

  lemma LinesOfTwo()
    ensures Lines("\nb") == ["b"]
  {
    assert TrimLeft("\nb", IsNewline) == TrimLeft("b", IsNewline) == "b" by { assert "\nb"[1..] == "b"; }
    assert TrimRight("b", IsNewline) == "b";
    SplitJoin(["b"], '\n');
  }

  // ----- When the channel goes down ------------------------------------------------------------

  lemma FullDomain(m: map<int, int>, n: nat)
    requires InRange(m, n)
    ensures |m| >= n <==> forall i :: 0 <= i < n ==> i in m
  {
    var all := Range(n);
    assert m.Keys <= all by {
      forall i | i in m.Keys
        ensures i in all
      {
      }
    }
    if forall i :: 0 <= i < n ==> i in m {
      forall i | i in all
        ensures i in m.Keys
      {
      }
      assert all <= m.Keys;
      SubsetSize(all, m.Keys);
    } else {
      var i :| 0 <= i < n && i !in m;
      assert m.Keys <= all - {i};
      SubsetSize(m.Keys, all - {i});
    }
  }

  lemma {:induction false} SubsetSize<T>(a: set<T>, b: set<T>)
    requires a <= b
    ensures |a| <= |b|
    decreases |a|
  {
    if |a| > 0 {
      var x :| x in a;
      SubsetSize(a - {x}, b - {x});
    }
  }

  /** A report marks the first key equal to the reported one, or the first of all if there is none: it
      gets the reported status, and if it is disabled the time and reason given; every other key keeps
      its status, time and reason, and the keys stay. A channel already in that status is left alone,
      and one without keys takes the status itself. */
  lemma ReportMarksTheKey(parse: string -> Option<seq<string>>, row: Row, usingKey: string, newStatus: int,
                          reason: string, now: int, i: nat)
    requires var keys := GetKeys(parse, row.key);
             i < |keys| && if usingKey in keys then keys[i] == usingKey && usingKey !in keys[..i] else i == 0
    ensures var r := Reported(parse, row, usingKey, newStatus, reason, now);
            if row.channelStatus == newStatus then r == row
            else
              && StatusAt(r.status, i) == newStatus
              && (forall j :: j != i ==> StatusAt(r.status, j) == StatusAt(row.status, j))
              && r.key == row.key && r.size == row.size
              && (if newStatus == 1 then r.times == row.times && r.reasons == row.reasons
                  else r.times == row.times[i := now] && r.reasons == row.reasons[i := reason])
  {
    hide GetKeys, IndexOf, Noted, StatusAt;
    IndexOfIsFirst(GetKeys(parse, row.key), usingKey, i);
    NotedMarks(row, i, newStatus, reason, now);
  }

  lemma NotedMarks(row: Row, i: nat, newStatus: int, reason: string, now: int)
    ensures var r := Noted(row, i, newStatus, reason, now);
            && StatusAt(r.status, i) == newStatus
            && (forall j :: j != i ==> StatusAt(r.status, j) == StatusAt(row.status, j))
            && r.key == row.key && r.size == row.size
            && (if newStatus == 1 then r.times == row.times && r.reasons == row.reasons
                else r.times == row.times[i := now] && r.reasons == row.reasons[i := reason])
  {
  }

  lemma ReportWithoutKeys(parse: string -> Option<seq<string>>, row: Row, usingKey: string, newStatus: int,
                          reason: string, now: int)
    requires GetKeys(parse, row.key) == []
    ensures Reported(parse, row, usingKey, newStatus, reason, now) == row.(channelStatus := newStatus)
  {
  }

  /** A report about a known key takes the channel down exactly when no key is left enabled. */
  lemma ChannelGoesDownIffNoKeyEnabled(parse: string -> Option<seq<string>>, row: Row, usingKey: string, newStatus: int,
                                       reason: string, now: int)
    requires WellFormed(parse, row) && ENABLED <= newStatus <= AUTO_DISABLED
    requires row.channelStatus != newStatus && row.size > 0
    ensures var r := Reported(parse, row, usingKey, newStatus, reason, now);
            r.channelStatus ==
              if (forall i :: 0 <= i < row.size ==> StatusAt(r.status, i) != ENABLED) then AUTO_DISABLED
              else row.channelStatus
  {
    hide GetKeys, CountKeys, PlainKeys;
    ReportKeepsWellFormed(parse, row, usingKey, newStatus, reason, now);
    var r := Reported(parse, row, usingKey, newStatus, reason, now);
    FullDomain(r.status, row.size);
    assert forall i :: StatusAt(r.status, i) != ENABLED <==> i in r.status;
  }

  // ----- Polling is fair --------------------------------------------------------------------

  /** The sequence of keys polling selects while the statuses do not change. */
  ghost predicate Polls(status: map<int, int>, n: nat, start: nat, picks: seq<nat>)
    requires start < n
    decreases |picks|
  {
    picks == [] ||
    (IsNextEnabled(status, n, start, picks[0]) && Polls(status, n, Following(n, picks[0]), picks[1..]))
  }

  /** FAIRNESS. However often polling has passed an enabled key by, it never passes it more often than
      there are keys ahead of it, and it selects no key twice before it gets there. */
  lemma {:induction false} PollingIsFair(status: map<int, int>, n: nat, start: nat, picks: seq<nat>, j: nat)
    requires start < n && j < n && StatusAt(status, j) == ENABLED
    requires Polls(status, n, start, picks) && j !in picks
    ensures |picks| <= Ahead(n, start, j)
    ensures forall a, b :: 0 <= a < b < |picks| ==> picks[a] != picks[b]
    ensures forall a :: 0 <= a < |picks| ==> picks[a] < n && Ahead(n, start, picks[a]) < Ahead(n, start, j)
    decreases |picks|
  {
    if picks != [] {
      var i, rest := picks[0], picks[1..];
      assert i in picks && forall x :: x in rest ==> x in picks;
      var next := Following(n, i);
      assert Ahead(n, start, i) < Ahead(n, start, j);
      assert Ahead(n, next, j) == Ahead(n, start, j) - Ahead(n, start, i) - 1;
      PollingIsFair(status, n, next, rest, j);
      forall a | 0 <= a < |rest|
        ensures rest[a] != i && Ahead(n, start, rest[a]) < Ahead(n, start, j)
      {
        assert Ahead(n, next, rest[a]) < Ahead(n, next, j);
      }
      assert forall a :: 1 <= a < |picks| ==> picks[a] == rest[a - 1];
    }
  }
}
