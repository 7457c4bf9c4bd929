/** `buildDifferences` of controller/ratio_sync.go: comparing the local prices with those of several
    upstream channels, field by field and model by model, and pruning what carries no difference. */
module RatioDifferences {
  import opened Text
  import opened Pricing

  // ----- Values and tables -----------------------------------------------------------------

  /** A decoded scalar; `Null` is the nil interface. */
  datatype Value = Null | Num(r: real) | Int(i: int) | Str(s: string) | Bool(b: bool)

  const SAME := Str("same")

  datatype Field =
    | ModelRatio | CompletionRatio | CacheRatio | CreateCacheRatio | ImageRatio
    | AudioRatio | AudioCompletionRatio | ModelPrice | BillingMode | BillingExpr

  const FIELDS: seq<Field> :=
    [ModelRatio, CompletionRatio, CacheRatio, CreateCacheRatio, ImageRatio,
     AudioRatio, AudioCompletionRatio, ModelPrice, BillingMode, BillingExpr]

  /** The position of a field in the list. */
  function Position(f: Field): (i: nat)
    ensures i < |FIELDS| && FIELDS[i] == f
  {
    match f
    case ModelRatio => 0
    case CompletionRatio => 1
    case CacheRatio => 2
    case CreateCacheRatio => 3
    case ImageRatio => 4
    case AudioRatio => 5
    case AudioCompletionRatio => 6
    case ModelPrice => 7
    case BillingMode => 8
    case BillingExpr => 9
  }

  /** The list holds every field once. */
  lemma FieldsListed(i: nat)
    requires i < |FIELDS|
    ensures Position(FIELDS[i]) == i
  {
  }

  type Table = map<Field, map<string, Value>>

  datatype Channel = Channel(name: string, data: Table)

  datatype Inputs = Inputs(local: Table, channels: seq<Channel>)

  function AsFloat64(v: Value): Option<real> {
    match v
    case Num(r) => Some(r)
    case Int(i) => Some(i as real)
    case _ => None
  }

  function NormalizeSyncValue(f: Field, v: Value): Value {
    if !f.BillingMode? && !f.BillingExpr? && AsFloat64(v).Some? then Num(AsFloat64(v).value) else v
  }

  predicate ValuesEqual(a: Value, b: Value) {
    if a.Num? && b.Num? then NearlyEqual(a.r, b.r) else a == b
  }

  /** `valueMap(table[field])`: a missing field reads as an empty map. */
  function Column(t: Table, f: Field): map<string, Value> {
    if f in t then t[f] else map[]
  }

  function Entry(t: Table, f: Field, model: string): Option<Value> {
    if model in Column(t, f) then Some(NormalizeSyncValue(f, Column(t, f)[model])) else None
  }

  function LocalValue(inp: Inputs, f: Field, model: string): Value {
    var e := Entry(inp.local, f, model);
    if e.None? then Null else e.value
  }

  // ----- One cell -------------------------------------------------------------------------

  /** What is recorded for a channel: its value where it differs, "same", or nothing. */
  function Marker(local: Value, up: Option<Value>): Value {
    var seen := if up.None? then Null
                else if local != Null && !ValuesEqual(local, up.value) then up.value
                else if ValuesEqual(local, up.value) then SAME
                else up.value;
    if seen == Null && local == Null then SAME else seen
  }

  predicate FlagsDifference(local: Value, up: Option<Value>) {
    || (up.Some? && local != Null && !ValuesEqual(local, up.value))
    || (local == Null && Marker(local, up) != Null && Marker(local, up) != SAME)
  }

  /** Not believed: the placeholder pair 37.5 and 1. */
  predicate Confident(c: Channel, model: string) {
    var ratio, completion := Column(c.data, ModelRatio), Column(c.data, CompletionRatio);
    !(&& model in ratio && model in completion
      && AsFloat64(ratio[model]).Some? && AsFloat64(completion[model]).Some?
      && NearlyEqual(AsFloat64(ratio[model]).value, 37.5) && NearlyEqual(AsFloat64(completion[model]).value, 1.0))
  }

  datatype Item = Item(current: Value, upstreams: map<string, Value>, confidence: map<string, bool>)

  /** The recorded values of a cell; a later channel of the same name overwrites an earlier one. */
  function Markers(channels: seq<Channel>, local: Value, f: Field, model: string): map<string, Value> {
    if channels == [] then map[]
    else
      var c := channels[|channels| - 1];
      Markers(channels[..|channels| - 1], local, f, model)[c.name := Marker(local, Entry(c.data, f, model))]
  }

  function Confidences(channels: seq<Channel>, model: string): map<string, bool> {
    if channels == [] then map[]
    else
      var c := channels[|channels| - 1];
      Confidences(channels[..|channels| - 1], model)[c.name := Confident(c, model)]
  }

  /** Some channel supplies a value. */
  predicate AnySupplies(channels: seq<Channel>, f: Field, model: string) {
    channels != [] &&
    (AnySupplies(channels[..|channels| - 1], f, model) || Entry(channels[|channels| - 1].data, f, model).Some?)
  }

  /** Some channel flags a difference. */
  predicate AnyFlags(channels: seq<Channel>, local: Value, f: Field, model: string) {
    channels != [] &&
    (AnyFlags(channels[..|channels| - 1], local, f, model)
     || FlagsDifference(local, Entry(channels[|channels| - 1].data, f, model)))
  }

  /** The cell enters the first draft. */
  predicate Included(inp: Inputs, f: Field, model: string) {
    var local := LocalValue(inp, f, model);
    if local != Null then AnyFlags(inp.channels, local, f, model) else AnySupplies(inp.channels, f, model)
  }

  function Draft(inp: Inputs, f: Field, model: string): Option<Item> {
    var local := LocalValue(inp, f, model);
    if Included(inp, f, model)
    then Some(Item(local, Markers(inp.channels, local, f, model), Confidences(inp.channels, model)))
    else None
  }

  predicate IsReal(v: Value) {
    v != Null && v != SAME
  }

  /** The channel name shows a value of its own somewhere in the draft. */
  ghost predicate ShowsDifference(inp: Inputs, name: string) {
    exists f, model :: DraftShows(inp, f, model, name)
  }

  predicate DraftShows(inp: Inputs, f: Field, model: string, name: string) {
    var d := Draft(inp, f, model);
    d.Some? && name in d.value.upstreams && IsReal(d.value.upstreams[name])
  }

  predicate OnlySame(ups: map<string, Value>) {
    forall name :: name in ups ==> ups[name] == SAME
  }

  /** Pruning one item: drop the channels that show nothing anywhere, then the item if nothing but
      "same" is left. */
  function Pruned(item: Item, names: set<string>): Option<Item> {
    var drop := item.upstreams.Keys - names;
    var ups := item.upstreams - drop;
    if OnlySame(ups) then None else Some(Item(item.current, ups, item.confidence - drop))
  }

  type Differences = map<string, map<Field, Item>>

  function Lookup(d: Differences, f: Field, model: string): Option<Item> {
    if model in d && f in d[model] then Some(d[model][f]) else None
  }

  predicate NoEmptyRows(d: Differences) {
    forall model :: model in d ==> d[model] != map[]
  }

  // ----- The stages as the source runs them -------------------------------------------------

  function Models(inp: Inputs): set<string> {
    TableModels(inp.local) + ChannelModels(inp.channels)
  }

  function TableModels(t: Table): set<string> {
    set f, model | f in t && model in t[f] :: model
  }

  function ChannelModels(channels: seq<Channel>): set<string> {
    if channels == [] then {}
    else ChannelModels(channels[..|channels| - 1]) + TableModels(channels[|channels| - 1].data)
  }

  method CollectModels(t: Table) returns (models: set<string>)
    ensures models == TableModels(t)
  {
    models := {};
    for i := 0 to |FIELDS|
      invariant models == set f, model | f in FIELDS[..i] && f in t && model in t[f] :: model
    {
      assert FIELDS[..i + 1] == FIELDS[..i] + [FIELDS[i]];
      models := models + Column(t, FIELDS[i]).Keys;
    }
    forall f | f in t
      ensures f in FIELDS[..|FIELDS|]
    {
      assert FIELDS[..|FIELDS|][Position(f)] == f;
    }
  }

  method CollectAllModels(inp: Inputs) returns (models: set<string>)
    ensures models == Models(inp)
  {
    models := CollectModels(inp.local);
    for i := 0 to |inp.channels|
      invariant models == TableModels(inp.local) + ChannelModels(inp.channels[..i])
    {
      assert inp.channels[..i + 1][..i] == inp.channels[..i];
      var more := CollectModels(inp.channels[i].data);
      models := models + more;
    }
    assert inp.channels[..|inp.channels|] == inp.channels;
  }

  /** The confidence of one channel in every model. */
  method ConfidenceRow(c: Channel, models: set<string>) returns (row: map<string, bool>)
    ensures row.Keys == models && forall model :: model in models ==> row[model] == Confident(c, model)
  {
    row := map[];
    var ratios, completions := Column(c.data, ModelRatio), Column(c.data, CompletionRatio);
    var todo := models;
    while todo != {}
      invariant todo <= models && row.Keys == models - todo
      invariant forall model :: model in row ==> row[model] == Confident(c, model)
      decreases todo
    {
      var model :| model in todo;
      todo := todo - {model};
      row := row[model := true];
      if |ratios| > 0 && |completions| > 0 && model in ratios && model in completions {
        var ratio, completion := AsFloat64(ratios[model]), AsFloat64(completions[model]);
        if ratio.Some? && completion.Some? && NearlyEqual(ratio.value, 37.5) && NearlyEqual(completion.value, 1.0) {
          row := row[model := false];
        }
      }
    }
  }

  method ConfidenceTable(inp: Inputs, models: set<string>) returns (table: map<string, map<string, bool>>)
    ensures forall model :: model in models ==> Agrees(table, inp.channels, model)
  {
    hide Confident, Agrees;
    table := map[];
    forall model
      ensures Agrees(table, inp.channels[..0], model)
    {
      AgreesEmpty(model);
    }
    for i := 0 to |inp.channels|
      invariant forall model :: model in models ==> Agrees(table, inp.channels[..i], model)
    {
      var row := ConfidenceRow(inp.channels[i], models);
      forall model | model in models
        ensures Agrees(table[inp.channels[i].name := row], inp.channels[..i + 1], model)
      {
        AgreesNext(table, inp.channels, i, row, model);
      }
      table := table[inp.channels[i].name := row];
    }
    assert inp.channels[..|inp.channels|] == inp.channels;
  }

  /** The table holds, for every channel name, what the fold says about the model. */
  ghost predicate Agrees(table: map<string, map<string, bool>>, channels: seq<Channel>, model: string) {
    && table.Keys == Confidences(channels, model).Keys
    && forall name :: name in table ==> model in table[name] && table[name][model] == Confidences(channels, model)[name]
  }

  lemma AgreesEmpty(model: string)
    ensures Agrees(map[], [], model)
  {
  }

  lemma AgreesNext(table: map<string, map<string, bool>>, channels: seq<Channel>, i: nat, row: map<string, bool>,
                   model: string)
    requires i < |channels| && Agrees(table, channels[..i], model)
    requires model in row && row[model] == Confident(channels[i], model)
    ensures Agrees(table[channels[i].name := row], channels[..i + 1], model)
  {
    hide Confident;
    assert channels[..i + 1][..i] == channels[..i];
  }

  function Names(channels: seq<Channel>): set<string> {
    if channels == [] then {} else Names(channels[..|channels| - 1]) + {channels[|channels| - 1].name}
  }

  lemma {:induction false} NamesMembers(channels: seq<Channel>, name: string)
    ensures name in Names(channels) <==> exists i :: 0 <= i < |channels| && channels[i].name == name
  {
    if channels != [] {
      var init := channels[..|channels| - 1];
      NamesMembers(init, name);
      if i :| 0 <= i < |channels| && channels[i].name == name {
        if i < |init| { assert init[i].name == name; }
      }
      if i :| 0 <= i < |init| && init[i].name == name {
        assert channels[i].name == name;
      }
    }
  }

  lemma {:induction false} KeysAreNames(channels: seq<Channel>, local: Value, f: Field, model: string)
    ensures Markers(channels, local, f, model).Keys == Confidences(channels, model).Keys == Names(channels)
  {
    hide Marker, Confident, Entry;
    if channels != [] { KeysAreNames(channels[..|channels| - 1], local, f, model); }
  }

  /** The inner loop over the channels for one cell, and the decision to keep it. */
  method DraftCell(inp: Inputs, f: Field, model: string, table: map<string, map<string, bool>>)
    returns (keep: bool, item: Item)
    requires Agrees(table, inp.channels, model)
    ensures keep == Draft(inp, f, model).Some?
    ensures keep ==> item == Draft(inp, f, model).value
  {
    hide Marker, Confident, Entry, FlagsDifference, LocalValue, Agrees;
    hide Confidences, Markers, Names, AnySupplies, AnyFlags;
    var localValue := LocalValue(inp, f, model);
    var upstreamValues: map<string, Value> := map[];
    var confidenceValues: map<string, bool> := map[];
    var hasUpstreamValue, hasDifference := false, false;
    FoldsAtStart(localValue, f, model);
    assert inp.channels[..0] == [];
    for i := 0 to |inp.channels|
      invariant upstreamValues == Markers(inp.channels[..i], localValue, f, model)
      invariant confidenceValues.Keys == Names(inp.channels[..i])
      invariant DrawnFrom(confidenceValues, table, model)
      invariant hasUpstreamValue == AnySupplies(inp.channels[..i], f, model)
      invariant hasDifference == AnyFlags(inp.channels[..i], localValue, f, model)
    {
      FoldsNext(inp.channels, i, localValue, f, model);
      var c := inp.channels[i];
      ChannelIsInTable(table, inp.channels, i, model);
      var entry := Entry(c.data, f, model);
      var upstreamValue, flagged := Observe(localValue, entry);
      if entry.Some? { hasUpstreamValue := true; }
      if flagged { hasDifference := true; }
      upstreamValues := upstreamValues[c.name := upstreamValue];
      confidenceValues := confidenceValues[c.name := table[c.name][model]];
    }
    assert inp.channels[..|inp.channels|] == inp.channels;
    keep := if localValue != Null then hasDifference else hasUpstreamValue;
    item := Item(localValue, upstreamValues, confidenceValues);
    DrawnFromIsConfidences(confidenceValues, table, inp.channels, model);
  }

  lemma FoldsAtStart(local: Value, f: Field, model: string)
    ensures Markers([], local, f, model) == map[] && Names([]) == {}
    ensures !AnySupplies([], f, model) && !AnyFlags([], local, f, model)
  {
  }

  lemma FoldsNext(channels: seq<Channel>, i: nat, local: Value, f: Field, model: string)
    requires i < |channels|
    ensures var c, before, after := channels[i], channels[..i], channels[..i + 1];
            var entry := Entry(c.data, f, model);
            && Markers(after, local, f, model) == Markers(before, local, f, model)[c.name := Marker(local, entry)]
            && Names(after) == Names(before) + {c.name}
            && AnySupplies(after, f, model) == (AnySupplies(before, f, model) || entry.Some?)
            && AnyFlags(after, local, f, model) == (AnyFlags(before, local, f, model) || FlagsDifference(local, entry))
  {
    hide Marker, Entry, FlagsDifference;
    assert channels[..i + 1][..i] == channels[..i];
  }

  ghost predicate DrawnFrom(values: map<string, bool>, table: map<string, map<string, bool>>, model: string) {
    forall name :: name in values ==> name in table && model in table[name] && values[name] == table[name][model]
  }

  lemma ChannelIsInTable(table: map<string, map<string, bool>>, channels: seq<Channel>, i: nat, model: string)
    requires i < |channels| && Agrees(table, channels, model)
    ensures channels[i].name in table && model in table[channels[i].name]
  {
    hide Confident;
    KeysAreNames(channels, Null, ModelRatio, model);
    NamesMembers(channels, channels[i].name);
  }

  lemma DrawnFromIsConfidences(values: map<string, bool>, table: map<string, map<string, bool>>,
                               channels: seq<Channel>, model: string)
    requires Agrees(table, channels, model) && DrawnFrom(values, table, model) && values.Keys == Names(channels)
    ensures values == Confidences(channels, model)
  {
    hide Confident;
    KeysAreNames(channels, Null, ModelRatio, model);
  }

  /** The value recorded for one channel and whether it counts as a difference. */
  method Observe(localValue: Value, entry: Option<Value>) returns (upstreamValue: Value, hasDifference: bool)
    ensures upstreamValue == Marker(localValue, entry)
    ensures hasDifference == FlagsDifference(localValue, entry)
  {
    upstreamValue, hasDifference := Null, false;
    if entry.Some? {
      upstreamValue := entry.value;
      if localValue != Null && !ValuesEqual(localValue, upstreamValue) {
        hasDifference := true;
      } else if ValuesEqual(localValue, upstreamValue) {
        upstreamValue := SAME;
      }
    }
    if upstreamValue == Null && localValue == Null {
      upstreamValue := SAME;
    }
    if localValue == Null && upstreamValue != Null && upstreamValue != SAME {
      hasDifference := true;
    }
  }

  method DraftRow(inp: Inputs, model: string, table: map<string, map<string, bool>>) returns (row: map<Field, Item>)
    requires Agrees(table, inp.channels, model)
    ensures forall f :: Draft(inp, f, model) == if f in row then Some(row[f]) else None
  {
    hide Draft;
    row := map[];
    for i := 0 to |FIELDS|
      invariant forall f :: f in FIELDS[..i] ==> Draft(inp, f, model) == if f in row then Some(row[f]) else None
      invariant forall f :: f in row ==> f in FIELDS[..i]
    {
      assert FIELDS[..i + 1] == FIELDS[..i] + [FIELDS[i]];
      var keep, item := DraftCell(inp, FIELDS[i], model, table);
      FieldsListed(i);
      assert FIELDS[i] !in row by {
        if FIELDS[i] in row {
          var j :| 0 <= j < i && FIELDS[j] == FIELDS[i];
          FieldsListed(j);
        }
      }
      if keep { row := row[FIELDS[i] := item]; }
    }
    forall f
      ensures f in FIELDS[..|FIELDS|]
    {
      assert FIELDS[..|FIELDS|][Position(f)] == f;
    }
  }

  /** A drafted cell belongs to a model that some table lists. */
  lemma DraftIsInModels(inp: Inputs, f: Field, model: string)
    requires Draft(inp, f, model).Some?
    ensures model in Models(inp)
  {
    hide FlagsDifference, Marker, NormalizeSyncValue;
    var local := LocalValue(inp, f, model);
    if local == Null {
      SupplierListsModel(inp.channels, f, model);
    } else {
      assert model in inp.local[f];
    }
  }

  lemma {:induction false} SupplierListsModel(channels: seq<Channel>, f: Field, model: string)
    requires AnySupplies(channels, f, model)
    ensures model in ChannelModels(channels)
  {
    hide NormalizeSyncValue;
    var n := |channels| - 1;
    if AnySupplies(channels[..n], f, model) {
      SupplierListsModel(channels[..n], f, model);
    } else {
      assert model in channels[n].data[f];
    }
  }

  /** The first stage: every model, every field. Go visits the models in an arbitrary order. */
  method DraftAll(inp: Inputs, models: set<string>, table: map<string, map<string, bool>>) returns (d: Differences)
    requires models == Models(inp)
    requires forall model :: model in models ==> Agrees(table, inp.channels, model)
    ensures NoEmptyRows(d) && forall f, model :: Lookup(d, f, model) == Draft(inp, f, model)
  {
    hide Draft, Agrees, Models;
    d := map[];
    var todo := models;
    while todo != {}
      invariant todo <= models && d.Keys <= models - todo && NoEmptyRows(d)
      invariant forall f, model :: model in models - todo ==> Lookup(d, f, model) == Draft(inp, f, model)
      decreases todo
    {
      var model :| model in todo;
      todo := todo - {model};
      var row := DraftRow(inp, model, table);
      if row != map[] { d := d[model := row]; }
    }
    forall f, model
      ensures Lookup(d, f, model) == Draft(inp, f, model)
    {
      if Draft(inp, f, model).Some? { DraftIsInModels(inp, f, model); }
    }
  }

  function RealNames(item: Item): set<string> {
    set name | name in item.upstreams && IsReal(item.upstreams[name])
  }

  function RowNames(row: map<Field, Item>): set<string> {
    set f, name | f in row && name in RealNames(row[f]) :: name
  }

  function DifferingNames(d: Differences): set<string> {
    set model, name | model in d && name in RowNames(d[model]) :: name
  }

  /** The second stage: the names that show a value of their own. */
  method ChannelsWithDifference(d: Differences) returns (names: set<string>)
    ensures names == DifferingNames(d)
  {
    hide RealNames, RowNames;
    names := {};
    var todo := d.Keys;
    while todo != {}
      invariant todo <= d.Keys
      invariant names == set model, name | model in d.Keys - todo && name in RowNames(d[model]) :: name
      decreases todo
    {
      var model :| model in todo;
      todo := todo - {model};
      var more := RowWithDifference(d[model]);
      names := names + more;
    }
  }

  method RowWithDifference(row: map<Field, Item>) returns (names: set<string>)
    ensures names == RowNames(row)
  {
    hide RealNames;
    names := {};
    var todo := row.Keys;
    while todo != {}
      invariant todo <= row.Keys
      invariant names == set f, name | f in row.Keys - todo && name in RealNames(row[f]) :: name
      decreases todo
    {
      var f :| f in todo;
      todo := todo - {f};
      var more := ItemWithDifference(row[f]);
      names := names + more;
    }
  }

  method ItemWithDifference(item: Item) returns (names: set<string>)
    ensures names == RealNames(item)
  {
    names := {};
    var todo := item.upstreams.Keys;
    while todo != {}
      invariant todo <= item.upstreams.Keys
      invariant names == set name | name in item.upstreams.Keys - todo && IsReal(item.upstreams[name])
      decreases todo
    {
      var name :| name in todo;
      todo := todo - {name};
      if item.upstreams[name] != Null && item.upstreams[name] != SAME {
        names := names + {name};
      }
    }
  }

  /** The third stage, on one item: delete in place, then look for anything but "same". */
  method PruneItem(item: Item, names: set<string>) returns (keep: bool, pruned: Item)
    ensures keep == Pruned(item, names).Some?
    ensures keep ==> pruned == Pruned(item, names).value
  {
    hide OnlySame;
    var ups, confidence := DeleteUnlisted(item, names);
    var allSame := AllSame(ups);
    keep := !(|ups| == 0 || allSame);
    EmptyIsOnlySame(ups);
    pruned := Item(item.current, ups, confidence);
  }

  /** The deletion loop over the item's channels. */
  method DeleteUnlisted(item: Item, names: set<string>) returns (ups: map<string, Value>, confidence: map<string, bool>)
    ensures ups == item.upstreams - (item.upstreams.Keys - names)
    ensures confidence == item.confidence - (item.upstreams.Keys - names)
  {
    ups, confidence := item.upstreams, item.confidence;
    var todo := item.upstreams.Keys;
    while todo != {}
      invariant todo <= item.upstreams.Keys
      invariant Without(ups, item.upstreams, item.upstreams.Keys - todo - names)
      invariant Without(confidence, item.confidence, item.upstreams.Keys - todo - names)
      decreases todo
    {
      var name :| name in todo;
      todo := todo - {name};
      if name !in names {
        ups := ups - {name};
        confidence := confidence - {name};
      }
    }
  }

  ghost predicate Without<V>(r: map<string, V>, m: map<string, V>, dropped: set<string>) {
    && (forall name :: name in r <==> name in m && name !in dropped)
    && (forall name :: name in r ==> r[name] == m[name])
  }

  lemma EmptyIsOnlySame(ups: map<string, Value>)
    ensures |ups| == 0 ==> OnlySame(ups)
  {
  }

  method AllSame(ups: map<string, Value>) returns (allSame: bool)
    ensures allSame == OnlySame(ups)
  {
    var todo := ups.Keys;
    while todo != {}
      invariant todo <= ups.Keys
      invariant forall name :: name in ups.Keys - todo ==> ups[name] == SAME
      decreases todo
    {
      var name :| name in todo;
      todo := todo - {name};
      if ups[name] != SAME { return false; }
    }
    return true;
  }

  method PruneRow(row: map<Field, Item>, names: set<string>) returns (r: map<Field, Item>)
    ensures forall f :: (if f in r then Some(r[f]) else None) == if f in row then Pruned(row[f], names) else None
  {
    hide Pruned;
    r := row;
    var todo := row.Keys;
    while todo != {}
      invariant todo <= row.Keys && r.Keys <= row.Keys
      invariant forall f :: f in todo ==> f in r && r[f] == row[f]
      invariant forall f :: f in row.Keys - todo ==> Pruned(row[f], names) == if f in r then Some(r[f]) else None
      decreases todo
    {
      var f :| f in todo;
      todo := todo - {f};
      var keep, item := PruneItem(row[f], names);
      if keep { r := r[f := item]; } else { r := r - {f}; }
    }
  }

  method Prune(d: Differences, names: set<string>) returns (r: Differences)
    ensures NoEmptyRows(r)
    ensures forall f, model :: Lookup(r, f, model) ==
              var before := Lookup(d, f, model); if before.Some? then Pruned(before.value, names) else None
  {
    hide Pruned;
    r := d;
    var todo := d.Keys;
    while todo != {}
      invariant todo <= d.Keys && r.Keys <= d.Keys
      invariant forall model :: model in todo ==> model in r && r[model] == d[model]
      invariant forall model :: model in r && model !in todo ==> r[model] != map[]
      invariant forall model, f :: model in d.Keys - todo ==>
                  Lookup(r, f, model) == if f in d[model] then Pruned(d[model][f], names) else None
      decreases todo
    {
      var model :| model in todo;
      todo := todo - {model};
      var row := PruneRow(d[model], names);
      if row == map[] { r := r - {model}; } else { r := r[model := row]; }
    }
  }

  // ----- The whole function --------------------------------------------------------------

  /** The names of the channels that show a value of their own somewhere. */
  ghost function ShowingNames(inp: Inputs): set<string> {
    set name | name in Names(inp.channels) && ShowsDifference(inp, name)
  }

  ghost function Final(inp: Inputs, f: Field, model: string): Option<Item> {
    var d := Draft(inp, f, model);
    if d.Some? then Pruned(d.value, ShowingNames(inp)) else None
  }

  method BuildDifferences(inp: Inputs) returns (differences: Differences)
    ensures forall model :: model in differences ==> differences[model] != map[]
    ensures forall f, model :: Lookup(differences, f, model) == Final(inp, f, model)
  {
    hide Draft, Agrees, Pruned, Models, ShowingNames, DifferingNames, Lookup;
    var models := CollectAllModels(inp);
    var confidence := ConfidenceTable(inp, models);
    var draft := DraftAll(inp, models, confidence);
    var names := ChannelsWithDifference(draft);
    NamesShowing(inp, draft);
    differences := Prune(draft, names);
  }

  lemma NamesShowing(inp: Inputs, d: Differences)
    requires forall f, model :: Lookup(d, f, model) == Draft(inp, f, model)
    ensures DifferingNames(d) == ShowingNames(inp)
  {
    hide Draft, IsReal;
    forall name | name in DifferingNames(d)
      ensures name in ShowingNames(inp)
    {
      var model :| model in d && name in RowNames(d[model]);
      var f :| f in d[model] && name in RealNames(d[model][f]);
      assert Lookup(d, f, model) == Some(d[model][f]);
      assert DraftShows(inp, f, model, name);
      ShownIsAName(inp, f, model, name);
    }
    forall name | name in ShowingNames(inp)
      ensures name in DifferingNames(d)
    {
      var f, model :| DraftShows(inp, f, model, name);
      assert Lookup(d, f, model).Some?;
      assert name in RealNames(d[model][f]);
      assert name in RowNames(d[model]);
    }
  }

  lemma ShownIsAName(inp: Inputs, f: Field, model: string, name: string)
    requires DraftShows(inp, f, model, name)
    ensures name in Names(inp.channels)
  {
    hide Marker, Confident, Entry, LocalValue, Included;
    KeysAreNames(inp.channels, LocalValue(inp, f, model), f, model);
  }

  // ----- Soundness and completeness -------------------------------------------------------

  predicate DistinctNames(channels: seq<Channel>) {
    forall i, j :: 0 <= i < j < |channels| ==> channels[i].name != channels[j].name
  }

  /** Every value listed is non-null and is not the string that marks equality. */
  ghost predicate PlainTable(t: Table) {
    forall f, model {:trigger Entry(t, f, model)} :: Entry(t, f, model).Some? ==> IsReal(Entry(t, f, model).value)
  }

  ghost predicate Plain(inp: Inputs) {
    PlainTable(inp.local) && forall i :: 0 <= i < |inp.channels| ==> PlainTable(inp.channels[i].data)
  }

  /** The i-th channel supplies a value that differs from the local one, or where there is none. */
  predicate Differs(inp: Inputs, i: nat, f: Field, model: string)
    requires i < |inp.channels|
  {
    var entry, local := Entry(inp.channels[i].data, f, model), LocalValue(inp, f, model);
    entry.Some? && (local == Null || !ValuesEqual(local, entry.value))
  }

  /** The difference can be seen in a marker: the value is neither null nor the string for equality. */
  predicate Shows(inp: Inputs, i: nat, f: Field, model: string)
    requires i < |inp.channels|
  {
    Differs(inp, i, f, model) && IsReal(Entry(inp.channels[i].data, f, model).value)
  }

  ghost predicate ShowsSomewhere(inp: Inputs, i: nat)
    requires i < |inp.channels|
  {
    exists f, model :: Shows(inp, i, f, model)
  }

  ghost predicate DiffersSomewhere(inp: Inputs, i: nat)
    requires i < |inp.channels|
  {
    exists f, model :: Differs(inp, i, f, model)
  }

  /** What a cell records for the i-th channel. */
  function MarkerOf(inp: Inputs, i: nat, f: Field, model: string): Value
    requires i < |inp.channels|
  {
    Marker(LocalValue(inp, f, model), Entry(inp.channels[i].data, f, model))
  }

  lemma {:induction false} MarkersAt(channels: seq<Channel>, local: Value, f: Field, model: string, i: nat)
    requires DistinctNames(channels) && i < |channels|
    ensures var name := channels[i].name;
            && name in Markers(channels, local, f, model) && name in Confidences(channels, model)
            && Markers(channels, local, f, model)[name] == Marker(local, Entry(channels[i].data, f, model))
            && Confidences(channels, model)[name] == Confident(channels[i], model)
  {
    hide Marker, Entry, Confident;
    var n := |channels| - 1;
    if i < n {
      MarkersAt(channels[..n], local, f, model, i);
      assert channels[..n][i] == channels[i];
    }
  }

  /** A marker is a value of its own exactly where the difference shows; a difference is flagged, or
      the value counted as supplied, exactly where the channel differs. */
  lemma MarkerMeaning(inp: Inputs, i: nat, f: Field, model: string)
    requires i < |inp.channels|
    ensures IsReal(MarkerOf(inp, i, f, model)) <==> Shows(inp, i, f, model)
    ensures var local, entry := LocalValue(inp, f, model), Entry(inp.channels[i].data, f, model);
            && (Differs(inp, i, f, model) <==> if local != Null then FlagsDifference(local, entry) else entry.Some?)
            && (local == Null ==> (FlagsDifference(local, entry) <==> Shows(inp, i, f, model)))
  {
    hide NormalizeSyncValue;
  }

  /** Two numbers are equal values exactly when they are less than a billionth apart, and any other two
      values exactly when they are the same. */
  lemma ValuesEqualMeans(a: Value, b: Value)
    ensures ValuesEqual(a, b) <==> if a.Num? && b.Num? then b.r - 0.000000001 < a.r < b.r + 0.000000001 else a == b
  {
  }

  /** So a channel that lists a number against a local number differs exactly when they are at least a
      billionth apart. */
  lemma NumbersDifferByEpsilon(f: Field, model: string, x: real, y: real)
    ensures var inp := Inputs(map[f := map[model := Num(x)]], [Channel("c", map[f := map[model := Num(y)]])]);
            Differs(inp, 0, f, model) <==> y <= x - 0.000000001 || x + 0.000000001 <= y
  {
  }

  /** An integer and a float of the same value differ in the two billing fields, whose values are compared
      as they are, and in no other, where both are numbers. */
  lemma IntegersCompareAsNumbers(f: Field, model: string, n: int)
    ensures var inp := Inputs(map[f := map[model := Int(n)]], [Channel("c", map[f := map[model := Num(n as real)]])]);
            Differs(inp, 0, f, model) <==> f == BillingMode || f == BillingExpr
  {
  }

  /** A channel is not believed about a model exactly when it lists 37.5 as its ratio and 1 as its
      completion ratio, each to less than a billionth. */
  lemma NotConfidentMeans(c: Channel, model: string)
    ensures !Confident(c, model) <==>
            Lists(c, ModelRatio, model, 37.5) && Lists(c, CompletionRatio, model, 1.0)
  {
  }

  predicate Lists(c: Channel, f: Field, model: string, value: real) {
    && f in c.data && model in c.data[f]
    && match c.data[f][model]
       case Num(r) => value - 0.000000001 < r < value + 0.000000001
       case Int(i) => value - 0.000000001 < i as real < value + 0.000000001
       case _ => false
  }

  lemma {:induction false} AnyMeaning(inp: Inputs, n: nat, f: Field, model: string)
    requires n <= |inp.channels|
    ensures (exists i :: 0 <= i < n && Differs(inp, i, f, model)) <==>
            if LocalValue(inp, f, model) == Null then AnySupplies(inp.channels[..n], f, model)
            else AnyFlags(inp.channels[..n], LocalValue(inp, f, model), f, model)
  {
    hide Marker, Entry, FlagsDifference, LocalValue, Differs;
    if n > 0 {
      AnyMeaning(inp, n - 1, f, model);
      MarkerMeaning(inp, n - 1, f, model);
      assert inp.channels[..n][..n - 1] == inp.channels[..n - 1];
    }
  }

  /** A cell is drafted exactly when some channel differs in it. */
  lemma DraftedIffDiffers(inp: Inputs, f: Field, model: string)
    ensures Draft(inp, f, model).Some? <==> exists i :: 0 <= i < |inp.channels| && Differs(inp, i, f, model)
  {
    hide LocalValue, Differs, AnyFlags, AnySupplies;
    AnyMeaning(inp, |inp.channels|, f, model);
    assert inp.channels[..|inp.channels|] == inp.channels;
  }

  /** The channels kept by the pruning are exactly those with a difference that shows somewhere. */
  lemma KeptIffShowsSomewhere(inp: Inputs, i: nat)
    requires DistinctNames(inp.channels) && i < |inp.channels|
    ensures inp.channels[i].name in ShowingNames(inp) <==> ShowsSomewhere(inp, i)
  {
    hide Marker, Entry, LocalValue, Differs, IsReal;
    var name := inp.channels[i].name;
    if ShowsDifference(inp, name) {
      var f, model :| DraftShows(inp, f, model, name);
      MarkersAt(inp.channels, LocalValue(inp, f, model), f, model, i);
      MarkerMeaning(inp, i, f, model);
    }
    if ShowsSomewhere(inp, i) {
      var f, model :| Shows(inp, i, f, model);
      DraftedIffDiffers(inp, f, model);
      MarkersAt(inp.channels, LocalValue(inp, f, model), f, model, i);
      MarkerMeaning(inp, i, f, model);
      assert DraftShows(inp, f, model, name);
      NamesMembers(inp.channels, name);
    }
  }

  /** A surviving item lists exactly the channels with a difference that shows somewhere, each with its
      own marker and the confidence in it. */
  lemma SurvivorListsShowingChannels(inp: Inputs, f: Field, model: string, i: nat)
    requires DistinctNames(inp.channels) && i < |inp.channels|
    requires Final(inp, f, model).Some?
    ensures var item, c := Final(inp, f, model).value, inp.channels[i];
            && item.current == LocalValue(inp, f, model)
            && (c.name in item.upstreams <==> ShowsSomewhere(inp, i))
            && (c.name in item.confidence <==> ShowsSomewhere(inp, i))
            && (ShowsSomewhere(inp, i) ==>
                  && item.upstreams[c.name] == MarkerOf(inp, i, f, model)
                  && item.confidence[c.name] == Confident(c, model))
  {
    hide Marker, Entry, LocalValue, Differs, ShowingNames, Confident, OnlySame;
    KeptIffShowsSomewhere(inp, i);
    MarkersAt(inp.channels, LocalValue(inp, f, model), f, model, i);
  }

  /** What a surviving item records for a channel it lists: the channel's own value where the difference
      shows, "same" where the values are equal or neither side has one, and null where only the local
      side has one. */
  lemma SurvivorRecords(inp: Inputs, f: Field, model: string, i: nat)
    requires DistinctNames(inp.channels) && i < |inp.channels| && Final(inp, f, model).Some?
    requires inp.channels[i].name in Final(inp, f, model).value.upstreams
    ensures var item, local := Final(inp, f, model).value, LocalValue(inp, f, model);
            var entry, recorded := Entry(inp.channels[i].data, f, model), item.upstreams[inp.channels[i].name];
            && item.current == local
            && (Shows(inp, i, f, model) ==> Some(recorded) == entry)
            && (entry.Some? && ValuesEqual(local, entry.value) ==> recorded == Str("same"))
            && (entry.None? && local == Null ==> recorded == Str("same"))
            && (entry.None? && local != Null ==> recorded == Null)
            && (entry == Some(Null) && local != Null ==> recorded == Null)
  {
    hide Entry, LocalValue, ShowingNames, OnlySame, ValuesEqual;
    MarkersAt(inp.channels, LocalValue(inp, f, model), f, model, i);
    ValuesEqualNull(LocalValue(inp, f, model));
    if Entry(inp.channels[i].data, f, model).Some? { ValuesEqualNull(Entry(inp.channels[i].data, f, model).value); }
  }

  lemma ValuesEqualNull(v: Value)
    ensures ValuesEqual(v, Null) <==> v == Null
    ensures ValuesEqual(Null, v) <==> v == Null
  {
  }

  /** EXACT CONDITION, on all values. An item survives if and only if some channel differs in it and
      some channel whose difference shows somewhere is not recorded as the same in it. */
  lemma SurvivesIffSeen(inp: Inputs, f: Field, model: string)
    requires DistinctNames(inp.channels)
    ensures Final(inp, f, model).Some? <==>
            && (exists i :: 0 <= i < |inp.channels| && Differs(inp, i, f, model))
            && (exists j :: 0 <= j < |inp.channels| && ShowsSomewhere(inp, j) && MarkerOf(inp, j, f, model) != SAME)
  {
    hide Marker, Entry, LocalValue, Differs, ShowingNames, ShowsSomewhere;
    DraftedIffDiffers(inp, f, model);
    if Draft(inp, f, model).Some? {
      var local, item := LocalValue(inp, f, model), Draft(inp, f, model).value;
      var ups := item.upstreams - (item.upstreams.Keys - ShowingNames(inp));
      KeysAreNames(inp.channels, local, f, model);
      if !OnlySame(ups) {
        var name :| name in ups && ups[name] != SAME;
        NamesMembers(inp.channels, name);
        var j :| 0 <= j < |inp.channels| && inp.channels[j].name == name;
        KeptIffShowsSomewhere(inp, j);
        MarkersAt(inp.channels, local, f, model, j);
      }
      if j :| 0 <= j < |inp.channels| && ShowsSomewhere(inp, j) && MarkerOf(inp, j, f, model) != SAME {
        KeptIffShowsSomewhere(inp, j);
        MarkersAt(inp.channels, local, f, model, j);
        assert ups[inp.channels[j].name] != SAME;
      }
    }
  }

  /** On plain values every difference shows. */
  lemma PlainDifferencesShow(inp: Inputs, i: nat, f: Field, model: string)
    requires Plain(inp) && i < |inp.channels|
    ensures Shows(inp, i, f, model) <==> Differs(inp, i, f, model)
    ensures ShowsSomewhere(inp, i) <==> DiffersSomewhere(inp, i)
  {
    hide Marker, NormalizeSyncValue, LocalValue;
    assert PlainTable(inp.channels[i].data);
    if DiffersSomewhere(inp, i) {
      var g, m :| Differs(inp, i, g, m);
      assert Shows(inp, i, g, m);
    }
  }

  /** SOUND AND COMPLETE. On plain values an item survives if and only if some channel's value differs
      from the local one or is supplied where none is local: pruning loses no difference and keeps no
      other, and the channels listed are exactly those that differ somewhere. */
  lemma SurvivesIffDiffers(inp: Inputs, f: Field, model: string)
    requires Plain(inp) && DistinctNames(inp.channels)
    ensures Final(inp, f, model).Some? <==> exists i :: 0 <= i < |inp.channels| && Differs(inp, i, f, model)
    ensures Final(inp, f, model).Some? ==>
              forall i :: 0 <= i < |inp.channels| ==>
                (inp.channels[i].name in Final(inp, f, model).value.upstreams <==> DiffersSomewhere(inp, i))
  {
    hide Marker, Entry, LocalValue, Differs, IsReal, Final, DiffersSomewhere;
    SurvivesIffSeen(inp, f, model);
    if i :| 0 <= i < |inp.channels| && Differs(inp, i, f, model) {
      PlainDifferencesShow(inp, i, f, model);
      MarkerMeaning(inp, i, f, model);
      RealIsNotSame(MarkerOf(inp, i, f, model));
    }
    if Final(inp, f, model).Some? {
      forall i | 0 <= i < |inp.channels|
        ensures inp.channels[i].name in Final(inp, f, model).value.upstreams <==> DiffersSomewhere(inp, i)
      {
        SurvivorListsShowingChannels(inp, f, model, i);
        PlainDifferencesShow(inp, i, f, model);
      }
    }
  }

  lemma RealIsNotSame(v: Value)
    ensures IsReal(v) ==> v != SAME
  {
  }

  /** Nothing but channels is listed. */
  lemma SurvivorListsOnlyChannels(inp: Inputs, f: Field, model: string, name: string)
    requires Final(inp, f, model).Some? && name in Final(inp, f, model).value.upstreams
    ensures exists i :: 0 <= i < |inp.channels| && inp.channels[i].name == name
  {
    hide Marker, Entry, LocalValue, ShowingNames, Confident, OnlySame;
    KeysAreNames(inp.channels, LocalValue(inp, f, model), f, model);
    NamesMembers(inp.channels, name);
  }

  /** The condition on the values is needed: an upstream that lists an explicit null, or the string that
      marks equality, against a local price does differ, and the item is drafted, but the pruning drops
      it. */
  lemma HiddenValueIsLost(hidden: Value)
    requires hidden == Null || hidden == Str("same")
    ensures var inp := Inputs(map[ModelRatio := map["m" := Num(1.0)]],
                              [Channel("c", map[ModelRatio := map["m" := hidden]])]);
            && DistinctNames(inp.channels) && Differs(inp, 0, ModelRatio, "m")
            && Draft(inp, ModelRatio, "m").Some? && Final(inp, ModelRatio, "m").None?
  {
    hide Draft, Final, ShowsSomewhere;
    var inp := Inputs(map[ModelRatio := map["m" := Num(1.0)]],
                      [Channel("c", map[ModelRatio := map["m" := hidden]])]);
    assert Differs(inp, 0, ModelRatio, "m");
    DraftedIffDiffers(inp, ModelRatio, "m");
    SurvivesIffSeen(inp, ModelRatio, "m");
    NeverShows(inp, hidden);
  }

  lemma NeverShows(inp: Inputs, hidden: Value)
    requires hidden == Null || hidden == Str("same")
    requires inp.channels == [Channel("c", map[ModelRatio := map["m" := hidden]])]
    ensures !ShowsSomewhere(inp, 0)
  {
    forall f, model
      ensures !Shows(inp, 0, f, model)
    {
    }
  }
}
