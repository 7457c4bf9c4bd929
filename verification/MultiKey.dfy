/** Multi-key channels: the actions of `ManageMultiKeys` in controller/channel.go, with the key text,
    `Update` and the status report of model/channel.go. Statuses, times and reasons are kept in maps
    from key index, so deleting keys has to renumber them. */
module MultiKey {
  import opened Text

  const ENABLED := 1
  const MANUALLY_DISABLED := 2
  const AUTO_DISABLED := 3

  // ----- The key text ------------------------------------------------------------------

  /** A text that opens with a bracket is tried as a JSON array; `parse` stands for that attempt. */
  predicate OpensArray(text: string) {
    var trimmed := TrimSpace(text);
    trimmed != "" && trimmed[0] == '['
  }

  function ArrayKeys(parse: string -> Option<seq<string>>, text: string): Option<seq<string>> {
    if OpensArray(text) then parse(TrimSpace(text)) else None
  }

  function IsNewline(c: char): bool { c == '\n' }

  function Lines(text: string): seq<string> {
    Split(Trim(text, IsNewline), '\n')
  }

  /** `Channel.GetKeys`. */
  function GetKeys(parse: string -> Option<seq<string>>, text: string): seq<string> {
    if text == "" then []
    else if ArrayKeys(parse, text).Some? then ArrayKeys(parse, text).value
    else Lines(text)
  }

  /** The key count `Channel.Update` stores: as `GetKeys`, but an empty array falls back to lines. */
  function CountKeys(parse: string -> Option<seq<string>>, text: string): nat {
    if text == "" then 0
    else if ArrayKeys(parse, text).Some? && ArrayKeys(parse, text).value != [] then |ArrayKeys(parse, text).value|
    else |Lines(text)|
  }

  /** A key that survives being stored as a line of its own. */
  predicate PlainKey(key: string) {
    key != "" && '\n' !in key && !OpensArray(key)
  }

  predicate PlainKeys(keys: seq<string>) {
    forall i :: 0 <= i < |keys| ==> PlainKey(keys[i])
  }

  /** The first character after the leading white space is an opening bracket. */
  predicate BracketFirst(s: string) {
    s != "" && if IsSpace(s[0]) then BracketFirst(s[1..]) else s[0] == '['
  }

  lemma {:induction false} BracketFirstTrims(s: string)
    ensures BracketFirst(s) <==> TrimLeft(s, IsSpace) != "" && TrimLeft(s, IsSpace)[0] == '['
  {
    if s != "" && IsSpace(s[0]) { BracketFirstTrims(s[1..]); }
  }

  lemma OpensArrayIsBracketFirst(s: string)
    ensures OpensArray(s) <==> BracketFirst(s)
  {
    BracketFirstTrims(s);
    var left := TrimLeft(s, IsSpace);
    TrimRightEnds(left, IsSpace);
    if left != "" && left[0] == '[' { TrimRightKeepsFirst(left); }
  }

  lemma {:induction false} TrimRightKeepsFirst(s: string)
    requires s != "" && !IsSpace(s[0])
    ensures TrimRight(s, IsSpace) != "" && TrimRight(s, IsSpace)[0] == s[0]
  {
    if IsSpace(s[|s| - 1]) { TrimRightKeepsFirst(s[..|s| - 1]); }
  }

  lemma {:induction false} BracketFirstOfJoin(keys: seq<string>)
    requires forall i :: 0 <= i < |keys| ==> !BracketFirst(keys[i])
    ensures !BracketFirst(Join(keys, '\n'))
  {
    if |keys| > 1 {
      var rest := Join(keys[1..], '\n');
      BracketFirstOfJoin(keys[1..]);
      BracketFirstOfConcat(keys[0], ['\n'] + rest);
      assert keys[0] + ['\n'] + rest == keys[0] + (['\n'] + rest);
      assert (['\n'] + rest)[1..] == rest;
    }
  }

  lemma {:induction false} BracketFirstOfConcat(a: string, b: string)
    requires !BracketFirst(a) && !BracketFirst(b)
    ensures !BracketFirst(a + b)
  {
    if a == "" {
      assert a + b == b;
    } else {
      assert (a + b)[1..] == a[1..] + b;
      if IsSpace(a[0]) { BracketFirstOfConcat(a[1..], b); }
    }
  }

  // ----- Storing a list of keys ------------------------------------------------------------

  lemma {:induction false} SplitEnds(s: string, sep: char)
    requires s != ""
    ensures s[0] != sep ==> Split(s, sep)[0] != ""
    ensures s[|s| - 1] != sep ==> Split(s, sep)[|Split(s, sep)| - 1] != ""
  {
    if |s| > 1 {
      SplitEnds(s[1..], sep);
      assert s[1..][|s[1..]| - 1] == s[|s| - 1];
    }
  }

  /** Lines of non-empty text start and end with a non-empty line, unless there is nothing but
      newlines, which is one empty line. */
  lemma LinesEnds(text: string)
    ensures var l := Lines(text); l == [""] || (l[0] != "" && l[|l| - 1] != "")
  {
    var t := Trim(text, IsNewline);
    TrimTrims(text, IsNewline);
    if t != "" { SplitEnds(t, '\n'); }
  }

  lemma {:induction false} JoinEnds(keys: seq<string>)
    requires keys != [] && keys[0] != "" && keys[|keys| - 1] != ""
    requires forall i :: 0 <= i < |keys| ==> '\n' !in keys[i]
    ensures Join(keys, '\n') != "" && Trimmed(Join(keys, '\n'), IsNewline)
  {
    var first, last := keys[0], keys[|keys| - 1];
    assert first[0] in first && last[|last| - 1] in last;
    JoinLast(keys);
  }

  lemma {:induction false} JoinLast(keys: seq<string>)
    requires keys != [] && keys[|keys| - 1] != ""
    ensures var j, last := Join(keys, '\n'), keys[|keys| - 1]; j != "" && j[|j| - 1] == last[|last| - 1]
  {
    if |keys| > 1 { JoinLast(keys[1..]); }
  }

  /** ROUND TRIP. A list of keys stored one per line reads back as the same lines if and only if it has
      no empty key at either end and no key holds a newline. */
  lemma LinesReadBackIff(keys: seq<string>)
    requires keys != []
    ensures Join(keys, '\n') != "" && Lines(Join(keys, '\n')) == keys
       <==> keys[0] != "" && keys[|keys| - 1] != "" && forall i :: 0 <= i < |keys| ==> '\n' !in keys[i]
  {
    var text := Join(keys, '\n');
    if keys[0] != "" && keys[|keys| - 1] != "" && forall i :: 0 <= i < |keys| ==> '\n' !in keys[i] {
      JoinEnds(keys);
      TrimTrims(text, IsNewline);
      SplitJoin(keys, '\n');
    } else {
      LinesEnds(text);
      assert keys == [""] ==> text == "";
    }
  }

  lemma PlainKeysReadBack(parse: string -> Option<seq<string>>, keys: seq<string>)
    requires PlainKeys(keys)
    ensures GetKeys(parse, Join(keys, '\n')) == keys
    ensures CountKeys(parse, Join(keys, '\n')) == |keys|
    ensures Join(keys, '\n') == "" <==> keys == []
  {
    hide Lines, TrimSpace, BracketFirst;
    if keys != [] {
      forall i | 0 <= i < |keys|
        ensures !BracketFirst(keys[i])
      {
        OpensArrayIsBracketFirst(keys[i]);
      }
      BracketFirstOfJoin(keys);
      OpensArrayIsBracketFirst(Join(keys, '\n'));
      LinesReadBackIff(keys);
    }
  }

  /** The stored count is the number of keys except for a text that decodes to an empty array, which has no
      keys and counts its lines. */
  lemma CountIsNumberOfKeysIff(parse: string -> Option<seq<string>>, text: string)
    ensures CountKeys(parse, text) == |GetKeys(parse, text)| <==> text == "" || ArrayKeys(parse, text) != Some([])
  {
    hide OpensArray;
  }

  // ----- The row -------------------------------------------------------------------------

  datatype Row = Row(key: string, size: int, status: map<int, int>, times: map<int, int>,
                     reasons: map<int, string>, channelStatus: int)

  function StatusAt(status: map<int, int>, i: int): int {
    if i in status then status[i] else ENABLED
  }

  /** The entries below an index. */
  function Below(status: map<int, int>, n: int): (r: map<int, int>)
    ensures forall i :: i in r <==> i in status && i < n
    ensures forall i :: i in r ==> r[i] == status[i]
  {
    map i | i in status && i < n :: status[i]
  }

  /** `Channel.Update` on a multi-key row: an empty key text keeps the stored one, the size is counted
      again, and statuses past it are dropped. Times and reasons are stored as they are. */
  function Updated(parse: string -> Option<seq<string>>, row: Row, key: string, status: map<int, int>,
                   times: map<int, int>, reasons: map<int, string>): Row
  {
    var text := if key != "" then key else row.key;
    var n := CountKeys(parse, text);
    row.(key := text, size := n, status := Below(status, n), times := times, reasons := reasons)
  }

  datatype Outcome = Done(count: nat) | IndexMissing | IndexOutOfRange | NothingToDo | LastKey

  /** The lists a deletion builds: survivors in order, with their metadata renumbered. */
  datatype Compacted =
    Compacted(keys: seq<string>, status: map<int, int>, times: map<int, int>, reasons: map<int, string>)

  /** Which keys survive, and whether an enabled survivor keeps its times and reasons. */
  datatype Plan = DeleteOne(index: int) | DeleteAutoDisabled

  predicate Survives(row: Row, plan: Plan, i: int) {
    match plan
    case DeleteOne(index) => i != index
    case DeleteAutoDisabled => StatusAt(row.status, i) != AUTO_DISABLED
  }

  predicate KeepsMetadata(row: Row, plan: Plan, i: int) {
    plan.DeleteOne? || StatusAt(row.status, i) != ENABLED
  }

  function Compact(row: Row, keys: seq<string>, plan: Plan, n: nat): Compacted
    requires n <= |keys|
  {
    if n == 0 then Compacted([], map[], map[], map[])
    else
      var c, i := Compact(row, keys, plan, n - 1), n - 1;
      if !Survives(row, plan, i) then c
      else
        var k := |c.keys|;
        Compacted(c.keys + [keys[i]],
                  if StatusAt(row.status, i) != ENABLED then c.status[k := row.status[i]] else c.status,
                  if i in row.times && KeepsMetadata(row, plan, i) then c.times[k := row.times[i]] else c.times,
                  if i in row.reasons && KeepsMetadata(row, plan, i) then c.reasons[k := row.reasons[i]] else c.reasons)
  }

  datatype Action =
    | DisableKey(index: Option<int>)
    | EnableKey(index: Option<int>)
    | EnableAll
    | DisableAll
    | DeleteKey(index: Option<int>)
    | DeleteDisabledKeys
    | ReportKey(usingKey: string, newStatus: int, reason: string, now: int)

  function Stored(parse: string -> Option<seq<string>>, row: Row, c: Compacted): Row {
    Updated(parse, row, Join(c.keys, '\n'), c.status, c.times, c.reasons)
  }

  /** All enabled keys turned off. */
  function AllOff(row: Row): map<int, int> {
    map i | i in row.status.Keys + Range(row.size) :: OffBelow(row, row.size, i)
  }

  function OffBelow(row: Row, n: int, i: int): int {
    if 0 <= i < n && StatusAt(row.status, i) == ENABLED then MANUALLY_DISABLED else StatusAt(row.status, i)
  }

  function Range(n: int): (s: set<int>)
    ensures forall i :: i in s <==> 0 <= i < n
    ensures n >= 0 ==> |s| == n
  {
    if n <= 0 then {} else Range(n - 1) + {n - 1}
  }

  /** How many keys were enabled. */
  function EnabledBelow(row: Row, n: nat): nat {
    if n == 0 then 0 else EnabledBelow(row, n - 1) + if StatusAt(row.status, n - 1) == ENABLED then 1 else 0
  }

  /** The index of the reported key; an unknown key falls back to the first. */
  function IndexOf(keys: seq<string>, key: string): (i: nat)
    ensures keys != [] ==> i < |keys|
    ensures key in keys ==> keys[i] == key && key !in keys[..i]
  {
    if exists i :: 0 <= i < |keys| && keys[i] == key then FirstAt(keys, key) else 0
  }

  function FirstAt(keys: seq<string>, key: string): (i: nat)
    requires key in keys
    ensures i < |keys| && keys[i] == key && key !in keys[..i]
  {
    if keys[0] == key then 0
    else
      var r := FirstAt(keys[1..], key);
      assert keys[..r + 1] == [keys[0]] + keys[1..][..r];
      r + 1
  }

  function Noted(row: Row, k: nat, newStatus: int, reason: string, now: int): Row {
    if newStatus == ENABLED then row.(status := row.status - {k})
    else row.(status := row.status[k := newStatus], reasons := row.reasons[k := reason], times := row.times[k := now])
  }

  /** A report from the relay about the key it used. */
  function Reported(parse: string -> Option<seq<string>>, row: Row, usingKey: string, newStatus: int,
                    reason: string, now: int): Row
  {
    var keys := GetKeys(parse, row.key);
    if row.channelStatus == newStatus then row
    else if keys == [] then row.(channelStatus := newStatus)
    else
      var noted := Noted(row, IndexOf(keys, usingKey), newStatus, reason, now);
      if |noted.status| >= row.size then noted.(channelStatus := AUTO_DISABLED) else noted
  }

  function Act(parse: string -> Option<seq<string>>, row: Row, action: Action): (r: (Row, Outcome)) {
    match action
    case DisableKey(index) =>
      if index.None? then (row, IndexMissing)
      else if index.value < 0 || index.value >= row.size then (row, IndexOutOfRange)
      else (Updated(parse, row, row.key, row.status[index.value := MANUALLY_DISABLED], row.times, row.reasons), Done(1))
    case EnableKey(index) =>
      if index.None? then (row, IndexMissing)
      else if index.value < 0 || index.value >= row.size then (row, IndexOutOfRange)
      else
        var k := {index.value};
        (Updated(parse, row, row.key, row.status - k, row.times - k, row.reasons - k), Done(1))
    case EnableAll => (Updated(parse, row, row.key, map[], map[], map[]), Done(|row.status|))
    case DisableAll =>
      var count := if row.size <= 0 then 0 else EnabledBelow(row, row.size);
      if count == 0 then (row, NothingToDo)
      else (Updated(parse, row, row.key, AllOff(row), row.times, row.reasons), Done(count))
    case DeleteKey(index) =>
      if index.None? then (row, IndexMissing)
      else if index.value < 0 || index.value >= row.size then (row, IndexOutOfRange)
      else
        var keys := GetKeys(parse, row.key);
        var c := Compact(row, keys, DeleteOne(index.value), |keys|);
        if c.keys == [] then (row, LastKey) else (Stored(parse, row, c), Done(1))
    case DeleteDisabledKeys =>
      var keys := GetKeys(parse, row.key);
      var c := Compact(row, keys, DeleteAutoDisabled, |keys|);
      if |c.keys| >= |keys| then (row, NothingToDo) else (Stored(parse, row, c), Done(|keys| - |c.keys|))
    case ReportKey(usingKey, newStatus, reason, now) =>
      (Reported(parse, row, usingKey, newStatus, reason, now), Done(0))
  }

  // ----- The actions as the source runs them -------------------------------------------

  /** Two maps with the same entries are equal. */
  lemma SameEntries<V>(a: map<int, V>, b: map<int, V>)
    requires forall i :: i in a <==> i in b
    requires forall i :: i in a ==> a[i] == b[i]
    ensures a == b
  {
    assert a.Keys == b.Keys by {
      forall i | i in a.Keys
        ensures i in b.Keys
      {
      }
      forall i | i in b.Keys
        ensures i in a.Keys
      {
      }
    }
    forall i | i in a
      ensures a[i] == b[i]
    {
    }
  }

  /** The loop that deletes the statuses at or past an index. */
  method DropFrom(status: map<int, int>, n: int) returns (kept: map<int, int>)
    ensures forall i :: i in kept <==> i in status && i < n
    ensures forall i :: i in kept ==> kept[i] == status[i]
  {
    kept := status;
    var todo := status.Items;
    while todo != {}
      invariant todo <= status.Items
      invariant forall i :: i in kept <==> i in status && ((i, status[i]) in todo || i < n)
      invariant forall i :: i in kept ==> kept[i] == status[i]
      decreases todo
    {
      var entry :| entry in todo;
      todo := todo - {entry};
      if entry.0 >= n { kept := kept - {entry.0}; }
    }
  }

  /** The loop that turns off every enabled key below n, and counts them. */
  method TurnOff(row: Row) returns (newStatus: map<int, int>, disabledCount: nat)
    ensures forall i :: i in newStatus <==> i in row.status || 0 <= i < row.size
    ensures forall i :: i in newStatus ==> newStatus[i] == OffBelow(row, row.size, i)
    ensures disabledCount == if row.size <= 0 then 0 else EnabledBelow(row, row.size)
  {
    newStatus := row.status;
    disabledCount := 0;
    var i := 0;
    while i < row.size
      invariant 0 <= i && (i <= row.size || i == 0)
      invariant disabledCount == EnabledBelow(row, i)
      invariant forall j :: j in newStatus <==> j in row.status || 0 <= j < i
      invariant forall j :: j in newStatus ==> newStatus[j] == OffBelow(row, i, j)
    {
      var current := if i in newStatus then newStatus[i] else ENABLED;
      if current == ENABLED {
        newStatus := newStatus[i := MANUALLY_DISABLED];
        disabledCount := disabledCount + 1;
      }
      i := i + 1;
    }
  }

  lemma AllOffByEntries(newStatus: map<int, int>, row: Row)
    requires forall i :: i in newStatus <==> i in row.status || 0 <= i < row.size
    requires forall i :: i in newStatus ==> newStatus[i] == OffBelow(row, row.size, i)
    ensures newStatus == AllOff(row)
  {
    hide OffBelow;
    SameEntries(newStatus, AllOff(row));
  }

  class MultiKeyChannel {
    const parse: string -> Option<seq<string>>
    var key: string
    var size: int
    var status: map<int, int>
    var times: map<int, int>
    var reasons: map<int, string>
    var channelStatus: int

    ghost function State(): Row
      reads this
    {
      Row(key, size, status, times, reasons, channelStatus)
    }

    constructor (parse: string -> Option<seq<string>>, row: Row)
      ensures State() == row && this.parse == parse
    {
      this.parse := parse;
      key, size, status, times, reasons := row.key, row.size, row.status, row.times, row.reasons;
      channelStatus := row.channelStatus;
    }

    /** `Channel.Update`, with its loop over the statuses. */
    method Update(newKey: string, newStatus: map<int, int>, newTimes: map<int, int>, newReasons: map<int, string>)
      modifies this
      ensures State() == Updated(parse, old(State()), newKey, newStatus, newTimes, newReasons)
    {
      hide CountKeys;
      if newKey != "" { key := newKey; }
      size := CountKeys(parse, key);
      times, reasons := newTimes, newReasons;
      var kept := DropFrom(newStatus, size);
      status := kept;
      SameEntries(kept, Below(newStatus, size));
    }

    method DisableKeyAction(index: Option<int>) returns (outcome: Outcome)
      modifies this
      ensures (State(), outcome) == Act(parse, old(State()), DisableKey(index))
    {
      hide Updated;
      if index.None? { return IndexMissing; }
      if index.value < 0 || index.value >= size { return IndexOutOfRange; }
      Update(key, status[index.value := MANUALLY_DISABLED], times, reasons);
      return Done(1);
    }

    method EnableKeyAction(index: Option<int>) returns (outcome: Outcome)
      modifies this
      ensures (State(), outcome) == Act(parse, old(State()), EnableKey(index))
    {
      hide Updated;
      if index.None? { return IndexMissing; }
      if index.value < 0 || index.value >= size { return IndexOutOfRange; }
      Update(key, status - {index.value}, times - {index.value}, reasons - {index.value});
      return Done(1);
    }

    method EnableAllKeys() returns (outcome: Outcome)
      modifies this
      ensures (State(), outcome) == Act(parse, old(State()), EnableAll)
    {
      hide Updated;
      var enabledCount := |status|;
      Update(key, map[], map[], map[]);
      return Done(enabledCount);
    }

    method DisableAllKeys() returns (outcome: Outcome)
      modifies this
      ensures (State(), outcome) == Act(parse, old(State()), DisableAll)
    {
      hide Updated, OffBelow, AllOff, EnabledBelow;
      var newStatus, disabledCount := TurnOff(Row(key, size, status, times, reasons, channelStatus));
      if disabledCount == 0 { return NothingToDo; }
      AllOffByEntries(newStatus, State());
      Update(key, newStatus, times, reasons);
      return Done(disabledCount);
    }

    /** The rebuilding loop shared by both deletions: `newIndex` is the number of keys kept so far. */
    method RebuildWithout(plan: Plan) returns (c: Compacted)
      ensures c == Compact(State(), GetKeys(parse, key), plan, |GetKeys(parse, key)|)
    {
      hide GetKeys;
      ghost var row := State();
      var keys := GetKeys(parse, key);
      var remaining: seq<string> := [];
      var newStatus: map<int, int>, newTimes: map<int, int>, newReasons: map<int, string> := map[], map[], map[];
      var newIndex := 0;
      for i := 0 to |keys|
        invariant State() == row && newIndex == |remaining|
        invariant Compacted(remaining, newStatus, newTimes, newReasons) == Compact(row, keys, plan, i)
      {
        var current := if i in status then status[i] else ENABLED;
        var gone := match plan case DeleteOne(index) => i == index case DeleteAutoDisabled => current == AUTO_DISABLED;
        if gone { continue; }
        remaining := remaining + [keys[i]];
        if i in status && status[i] != ENABLED {
          newStatus := newStatus[newIndex := status[i]];
        }
        if plan.DeleteOne? || current != ENABLED {
          if i in times { newTimes := newTimes[newIndex := times[i]]; }
          if i in reasons { newReasons := newReasons[newIndex := reasons[i]]; }
        }
        newIndex := newIndex + 1;
      }
      c := Compacted(remaining, newStatus, newTimes, newReasons);
    }

    method DeleteKeyAction(index: Option<int>) returns (outcome: Outcome)
      modifies this
      ensures (State(), outcome) == Act(parse, old(State()), DeleteKey(index))
    {
      hide Updated, GetKeys, Compact;
      if index.None? { return IndexMissing; }
      if index.value < 0 || index.value >= size { return IndexOutOfRange; }
      var c := RebuildWithout(DeleteOne(index.value));
      if |c.keys| == 0 { return LastKey; }
      Update(Join(c.keys, '\n'), c.status, c.times, c.reasons);
      return Done(1);
    }

    method DeleteDisabledKeysAction() returns (outcome: Outcome)
      modifies this
      ensures (State(), outcome) == Act(parse, old(State()), DeleteDisabledKeys)
    {
      hide Updated, GetKeys, Compact;
      var total := |GetKeys(parse, key)|;
      var c := RebuildWithout(DeleteAutoDisabled);
      var deletedCount := total - |c.keys|;
      if deletedCount <= 0 { return NothingToDo; }
      Update(Join(c.keys, '\n'), c.status, c.times, c.reasons);
      return Done(deletedCount);
    }

    /** `UpdateChannelStatus` and `handlerMultiKeyUpdate`, with the search loop for the key. */
    method ReportKeyAction(usingKey: string, newStatus: int, reason: string, now: int)
      modifies this
      ensures State() == Reported(parse, old(State()), usingKey, newStatus, reason, now)
    {
      hide GetKeys, IndexOf;
      if channelStatus == newStatus { return; }
      var keys := GetKeys(parse, key);
      if |keys| == 0 {
        channelStatus := newStatus;
        return;
      }
      var keyIndex := FindKey(keys, usingKey);
      if newStatus == ENABLED {
        status := status - {keyIndex};
      } else {
        status := status[keyIndex := newStatus];
        reasons := reasons[keyIndex := reason];
        times := times[keyIndex := now];
      }
      if |status| >= size { channelStatus := AUTO_DISABLED; }
    }
  }

  /** The search loop for the reported key. */
  method FindKey(keys: seq<string>, usingKey: string) returns (keyIndex: nat)
    requires keys != []
    ensures keyIndex == IndexOf(keys, usingKey)
  {
    hide IndexOf;
    keyIndex := 0;
    for i := 0 to |keys|
      invariant keyIndex == 0 && usingKey !in keys[..i]
    {
      if keys[i] == usingKey {
        keyIndex := i;
        break;
      }
      assert keys[..i + 1] == keys[..i] + [keys[i]];
    }
    assert keys[..|keys|] == keys;
    IndexOfIsFirst(keys, usingKey, keyIndex);
  }

  lemma IndexOfIsFirst(keys: seq<string>, key: string, i: nat)
    requires keys != [] && i < |keys|
    requires if key in keys then keys[i] == key && key !in keys[..i] else i == 0
    ensures IndexOf(keys, key) == i
  {
    var k := IndexOf(keys, key);
    if key in keys {
      forall j: nat | j < k
        ensures keys[j] != key
      {
        if keys[j] == key { OccursBefore(keys, key, j, k); }
      }
      forall j: nat | j < i
        ensures keys[j] != key
      {
        if keys[j] == key { OccursBefore(keys, key, j, i); }
      }
    }
  }

  lemma OccursBefore(keys: seq<string>, key: string, k: nat, i: nat)
    requires k < i <= |keys| && keys[k] == key
    ensures key in keys[..i]
  {
    assert keys[..i][k] == key;
  }

  // ----- Choosing a key: polling ----------------------------------------------------------

  /** How far ahead of the start an index lies, going round. */
  function Ahead(n: nat, start: nat, i: nat): nat
    requires start < n && i < n
  {
    if i >= start then i - start else i + n - start
  }

  /** The first enabled key at or after the start, going round. */
  ghost predicate IsNextEnabled(status: map<int, int>, n: nat, start: nat, i: nat)
    requires start < n
  {
    && i < n && StatusAt(status, i) == ENABLED
    && forall j: nat :: j < n && StatusAt(status, j) == ENABLED ==> Ahead(n, start, i) <= Ahead(n, start, j)
  }

  /** Read out: the key has status 1, and no key from the start up to it, going round, has. */
  lemma NextEnabledMeans(status: map<int, int>, n: nat, start: nat, i: nat)
    requires start < n
    ensures IsNextEnabled(status, n, start, i) <==>
            && i < n && StatusAt(status, i) == 1
            && (forall j :: start <= j < n && (j < i || i < start) ==> StatusAt(status, j) != 1)
            && (i < start ==> forall j :: 0 <= j < i ==> StatusAt(status, j) != 1)
  {
    if i < n && IsNextEnabled(status, n, start, i) {
      forall j: nat | j < n && (start <= j < i || (i < start && (start <= j || j < i)))
        ensures StatusAt(status, j) != 1
      {
        assert Ahead(n, start, j) < Ahead(n, start, i);
      }
    }
  }

  function Following(n: nat, i: nat): nat
    requires i < n
  {
    if i + 1 == n then 0 else i + 1
  }

  lemma RoundTheCorner(n: nat, start: nat, i: nat)
    requires start < n && i < n
    ensures (start + i) % n == if start + i < n then start + i else start + i - n
  {
    if start + i < n { SmallMod(start + i, n); } else { WrapMod(start + i, n); }
  }

  lemma SmallMod(x: nat, n: nat)
    requires x < n
    ensures x % n == x
  {
  }

  lemma WrapMod(x: nat, n: nat)
    requires n <= x < 2 * n
    ensures x % n == x - n
  {
  }

  /** The polling branch of `GetNextEnabledKey`: the chosen index and the next polling index, or
      nothing when no key is enabled. */
  method PollNextKey(status: map<int, int>, n: nat, pollingIndex: int) returns (r: Option<(nat, nat)>)
    ensures r.None? <==> forall i: nat :: i < n ==> StatusAt(status, i) != ENABLED
    ensures r.Some? ==>
              var start := if 0 <= pollingIndex < n then pollingIndex else 0;
              n > 0 && IsNextEnabled(status, n, start, r.value.0) && r.value.1 == Following(n, r.value.0)
  {
    var start := pollingIndex;
    if start < 0 || start >= n { start := 0; }
    for i := 0 to n
      invariant forall j: nat :: j < n && Ahead(n, start, j) < i ==> StatusAt(status, j) != ENABLED
    {
      RoundTheCorner(n, start, i);
      var idx := (start + i) % n;
      if StatusAt(status, idx) == ENABLED {
        if n > 1 { RoundTheCorner(n, idx, 1); }
        return Some((idx, (idx + 1) % n));
      }
      forall j: nat | j < n && Ahead(n, start, j) < i + 1
        ensures StatusAt(status, j) != ENABLED
      {
        if Ahead(n, start, j) == i { assert j == idx; }
      }
    }
    return None;
  }

  // ----- Deleting is an order-preserving compaction ---------------------------------------

  /** The rank of an index among the survivors: its new index. */
  function Rank(row: Row, plan: Plan, i: nat): nat {
    if i == 0 then 0 else Rank(row, plan, i - 1) + if Survives(row, plan, i - 1) then 1 else 0
  }

  lemma {:induction false} RankMonotone(row: Row, plan: Plan, i: nat, j: nat)
    requires i < j && Survives(row, plan, i)
    ensures Rank(row, plan, i) < Rank(row, plan, j)
  {
    if i < j - 1 { RankMonotone(row, plan, i, j - 1); }
  }

  /** What the compacted lists hold for an old index. */
  predicate CarriedOver(row: Row, keys: seq<string>, plan: Plan, c: Compacted, i: nat)
    requires i < |keys|
  {
    var k := Rank(row, plan, i);
    && k < |c.keys| && c.keys[k] == keys[i]
    && StatusAt(c.status, k) == StatusAt(row.status, i)
    && (k in c.times <==> i in row.times && (plan.DeleteOne? || StatusAt(row.status, i) != 1))
    && (k in c.times ==> c.times[k] == row.times[i])
    && (k in c.reasons <==> i in row.reasons && (plan.DeleteOne? || StatusAt(row.status, i) != 1))
    && (k in c.reasons ==> c.reasons[k] == row.reasons[i])
  }

  predicate WithinRange(c: Compacted) {
    && (forall k :: k in c.status ==> 0 <= k < |c.keys|)
    && (forall k :: k in c.times ==> 0 <= k < |c.keys|)
    && (forall k :: k in c.reasons ==> 0 <= k < |c.keys|)
  }

  lemma {:induction false} CompactCarriesOver(row: Row, keys: seq<string>, plan: Plan, n: nat)
    requires n <= |keys|
    ensures var c := Compact(row, keys, plan, n);
            && |c.keys| == Rank(row, plan, n) && WithinRange(c)
            && forall i :: 0 <= i < n && Survives(row, plan, i) ==> CarriedOver(row, keys, plan, c, i)
  {
    hide Survives, CarriedOver, KeepsMetadata;
    if n > 0 {
      CompactCarriesOver(row, keys, plan, n - 1);
      var c := Compact(row, keys, plan, n);
      if Survives(row, plan, n - 1) { LastCarriesOver(row, keys, plan, n); }
      forall i | 0 <= i < n && Survives(row, plan, i)
        ensures CarriedOver(row, keys, plan, c, i)
      {
        if i < n - 1 {
          RankMonotone(row, plan, i, n - 1);
          EarlierStaysCarried(row, keys, plan, n, i);
        }
      }
    }
  }

  lemma LastCarriesOver(row: Row, keys: seq<string>, plan: Plan, n: nat)
    requires 0 < n <= |keys| && Survives(row, plan, n - 1)
    requires var b := Compact(row, keys, plan, n - 1); |b.keys| == Rank(row, plan, n - 1) && WithinRange(b)
    ensures CarriedOver(row, keys, plan, Compact(row, keys, plan, n), n - 1)
  {
    hide Survives;
  }

  lemma EarlierStaysCarried(row: Row, keys: seq<string>, plan: Plan, n: nat, i: nat)
    requires 0 < n <= |keys| && i < n - 1
    requires var b := Compact(row, keys, plan, n - 1);
             CarriedOver(row, keys, plan, b, i) && Rank(row, plan, i) < |b.keys|
    ensures CarriedOver(row, keys, plan, Compact(row, keys, plan, n), i)
  {
    hide Survives, KeepsMetadata, Rank;
  }

  /** Every new index is the rank of exactly one survivor, so no metadata of a deleted key remains. */
  lemma {:induction false} EveryNewIndexIsARank(row: Row, plan: Plan, n: nat, k: nat) returns (i: nat)
    requires k < Rank(row, plan, n)
    ensures i < n && Survives(row, plan, i) && Rank(row, plan, i) == k
  {
    if Survives(row, plan, n - 1) && k == Rank(row, plan, n - 1) {
      i := n - 1;
    } else {
      i := EveryNewIndexIsARank(row, plan, n - 1, k);
    }
  }
}
