/** controller/channel_upstream_update.go: keeping a channel's model list in step with its upstream.
    A check detects pending additions and removals; an operator (or auto-sync) applies or ignores
    them. Whether a pattern matches a name is a parameter; storage always succeeds. */
module UpstreamSync {
  import opened Text

  // ----- Name lists ------------------------------------------------------------------

  /** `lo.Uniq`: the first occurrence of each element. */
  function Uniq(s: seq<string>): seq<string> {
    if s == [] then []
    else
      var u := Uniq(s[..|s| - 1]);
      if s[|s| - 1] in u then u else u + [s[|s| - 1]]
  }

  /** `lo.Filter`. */
  function Filter(s: seq<string>, keep: string -> bool): seq<string> {
    if s == [] then []
    else
      var f := Filter(s[..|s| - 1], keep);
      if keep(s[|s| - 1]) then f + [s[|s| - 1]] else f
  }

  /** The trimmed, non-empty names. */
  function Cleaned(models: seq<string>): seq<string> {
    if models == [] then []
    else
      var c := Cleaned(models[..|models| - 1]);
      var name := TrimSpace(models[|models| - 1]);
      if name != "" then c + [name] else c
  }

  function NormalizeModelNames(models: seq<string>): seq<string> {
    Uniq(Cleaned(models))
  }

  predicate NoDuplicates(s: seq<string>) {
    forall i, j :: 0 <= i < j < |s| ==> s[i] != s[j]
  }

  predicate IsName(x: string) {
    x != "" && TrimSpace(x) == x
  }

  /** A normalized list: trimmed, non-empty and distinct names. */
  predicate Normal(s: seq<string>) {
    NoDuplicates(s) && forall i :: 0 <= i < |s| ==> IsName(s[i])
  }

  lemma {:induction false} UniqIsDistinct(s: seq<string>)
    ensures NoDuplicates(Uniq(s))
    ensures forall x :: x in Uniq(s) <==> x in s
    ensures NoDuplicates(s) ==> Uniq(s) == s
  {
    if s != [] {
      UniqIsDistinct(s[..|s| - 1]);
      assert s == s[..|s| - 1] + [s[|s| - 1]];
    }
  }

  /** The name at some position of the list, trimmed. */
  ghost predicate Trims(models: seq<string>, x: string) {
    exists i :: 0 <= i < |models| && TrimSpace(models[i]) == x
  }

  lemma TrimsLast(models: seq<string>, x: string)
    requires models != []
    ensures Trims(models, x) <==> Trims(models[..|models| - 1], x) || TrimSpace(models[|models| - 1]) == x
  {
    hide TrimSpace;
    var init := models[..|models| - 1];
    if Trims(init, x) {
      var i :| 0 <= i < |init| && TrimSpace(init[i]) == x;
      assert TrimSpace(models[i]) == x;
    }
    if Trims(models, x) {
      var i :| 0 <= i < |models| && TrimSpace(models[i]) == x;
      if i < |init| { assert TrimSpace(init[i]) == x; }
    }
  }

  lemma {:induction false} CleanedMembers(models: seq<string>, x: string)
    ensures x in Cleaned(models) <==> x != "" && Trims(models, x)
  {
    hide TrimSpace, Trims;
    if models == [] {
      NoTrims(x);
    } else {
      CleanedMembers(models[..|models| - 1], x);
      TrimsLast(models, x);
    }
  }

  lemma NoTrims(x: string)
    ensures !Trims([], x)
  {
  }

  lemma TrimmedIsName(s: string)
    ensures TrimSpace(s) != "" ==> IsName(TrimSpace(s))
  {
    TrimTrims(s, IsSpace);
    TrimTrims(TrimSpace(s), IsSpace);
  }

  lemma {:induction false} CleanedAreNames(models: seq<string>)
    ensures forall i :: 0 <= i < |Cleaned(models)| ==> IsName(Cleaned(models)[i])
  {
    hide TrimSpace, IsName;
    if models != [] {
      CleanedAreNames(models[..|models| - 1]);
      TrimmedIsName(models[|models| - 1]);
    }
  }

  lemma {:induction false} NamesAreClean(models: seq<string>)
    requires forall i :: 0 <= i < |models| ==> IsName(models[i])
    ensures Cleaned(models) == models
  {
    hide TrimSpace;
    if models != [] {
      NamesAreClean(models[..|models| - 1]);
      assert models == models[..|models| - 1] + [models[|models| - 1]];
    }
  }

  /** Normalizing yields a normal list. */
  lemma NormalizedNormal(models: seq<string>)
    ensures Normal(NormalizeModelNames(models))
  {
    hide IsName, Uniq, Cleaned;
    CleanedAreNames(models);
    UniqIsDistinct(Cleaned(models));
    forall i | 0 <= i < |Uniq(Cleaned(models))|
      ensures IsName(Uniq(Cleaned(models))[i])
    {
      assert Uniq(Cleaned(models))[i] in Cleaned(models);
    }
  }

  /** And it leaves a normal list alone. */
  lemma NormalIsFixed(models: seq<string>)
    requires Normal(models)
    ensures NormalizeModelNames(models) == models
  {
    hide IsName, Uniq, Cleaned;
    NamesAreClean(models);
    UniqIsDistinct(models);
  }

  lemma NormalizedMembers(models: seq<string>, x: string)
    ensures x in NormalizeModelNames(models) <==> x != "" && Trims(models, x)
  {
    hide Trims, Uniq, Cleaned;
    CleanedMembers(models, x);
    UniqIsDistinct(Cleaned(models));
  }

  lemma {:induction false} FilterMembers(s: seq<string>, keep: string -> bool)
    ensures forall x :: x in Filter(s, keep) <==> x in s && keep(x)
  {
    if s != [] {
      FilterMembers(s[..|s| - 1], keep);
      assert s == s[..|s| - 1] + [s[|s| - 1]];
    }
  }

  lemma {:induction false} FilterDistinct(s: seq<string>, keep: string -> bool)
    requires NoDuplicates(s)
    ensures NoDuplicates(Filter(s, keep))
  {
    if s != [] {
      var init := s[..|s| - 1];
      FilterDistinct(init, keep);
      FilterMembers(init, keep);
      var f := Filter(init, keep);
      assert forall i :: 0 <= i < |f| ==> f[i] in init;
    }
  }

  lemma {:induction false} FilterAll(s: seq<string>, keep: string -> bool)
    requires forall i :: 0 <= i < |s| ==> keep(s[i])
    ensures Filter(s, keep) == s
  {
    if s != [] { FilterAll(s[..|s| - 1], keep); }
  }

  lemma {:induction false} FilterNone(s: seq<string>, keep: string -> bool)
    requires forall i :: 0 <= i < |s| ==> !keep(s[i])
    ensures Filter(s, keep) == []
  {
    if s != [] { FilterNone(s[..|s| - 1], keep); }
  }

  lemma FilterSelects(s: seq<string>, keep: string -> bool)
    ensures forall x :: x in Filter(s, keep) <==> x in s && keep(x)
    ensures NoDuplicates(s) ==> NoDuplicates(Filter(s, keep))
    ensures (forall x :: x in s ==> keep(x)) ==> Filter(s, keep) == s
    ensures (forall x :: x in s ==> !keep(x)) ==> Filter(s, keep) == []
  {
    hide Filter;
    FilterMembers(s, keep);
    if forall x :: x in s ==> keep(x) { FilterAll(s, keep); }
    if forall x :: x in s ==> !keep(x) { FilterNone(s, keep); }
    if NoDuplicates(s) { FilterDistinct(s, keep); }
  }

  lemma FilterKeepsNormal(s: seq<string>, keep: string -> bool)
    requires Normal(s)
    ensures Normal(Filter(s, keep))
  {
    hide IsName, Filter;
    FilterSelects(s, keep);
    forall i | 0 <= i < |Filter(s, keep)|
      ensures IsName(Filter(s, keep)[i])
    {
      assert Filter(s, keep)[i] in s;
    }
  }

  lemma AppendDisjointKeepsNormal(a: seq<string>, b: seq<string>)
    requires Normal(a) && Normal(b) && forall x :: x in a ==> x !in b
    ensures Normal(a + b)
  {
    hide IsName;
    forall i, j | 0 <= i < j < |a + b|
      ensures (a + b)[i] != (a + b)[j]
    {
      if i < |a| <= j { assert a[i] in a && b[j - |a|] in b; }
    }
  }

  // ----- Set algebra on normal lists -----------------------------------------------

  function NotIn(s: seq<string>): string -> bool {
    x => x !in s
  }

  function In(s: seq<string>): string -> bool {
    x => x in s
  }

  /** On normal lists: the base, then the new names in their order. */
  function Merge(a: seq<string>, b: seq<string>): seq<string> {
    a + Filter(b, NotIn(a))
  }

  function Subtract(a: seq<string>, b: seq<string>): seq<string> {
    Filter(a, NotIn(b))
  }

  function Intersect(a: seq<string>, b: seq<string>): seq<string> {
    Filter(a, In(b))
  }

  lemma SubtractNormal(a: seq<string>, b: seq<string>)
    requires Normal(a)
    ensures Normal(Subtract(a, b))
    ensures forall x :: x in Subtract(a, b) <==> x in a && x !in b
  {
    FilterSelects(a, NotIn(b));
    FilterKeepsNormal(a, NotIn(b));
  }

  lemma IntersectNormal(a: seq<string>, b: seq<string>)
    requires Normal(a)
    ensures Normal(Intersect(a, b))
    ensures forall x :: x in Intersect(a, b) <==> x in a && x in b
  {
    FilterSelects(a, In(b));
    FilterKeepsNormal(a, In(b));
  }

  lemma MergeNormal(a: seq<string>, b: seq<string>)
    requires Normal(a) && Normal(b)
    ensures Normal(Merge(a, b))
    ensures forall x :: x in Merge(a, b) <==> x in a || x in b
  {
    FilterSelects(b, NotIn(a));
    FilterKeepsNormal(b, NotIn(a));
    AppendDisjointKeepsNormal(a, Filter(b, NotIn(a)));
  }

  method MergeModelNames(base: seq<string>, appended: seq<string>) returns (merged: seq<string>)
    ensures merged == Merge(NormalizeModelNames(base), NormalizeModelNames(appended))
  {
    hide NormalizeModelNames, NotIn, IsName, Filter;
    merged := NormalizeModelNames(base);
    ghost var a := merged;
    var seen := ElementSet(merged);
    var more := NormalizeModelNames(appended);
    NormalizedNormal(appended);
    EmptyFilter(NotIn(a));
    for i := 0 to |more|
      invariant merged == a + Filter(more[..i], NotIn(a))
      invariant forall x :: x in seen <==> x in a || x in more[..i]
    {
      FilterNext(more, i, NotIn(a));
      NotInMeaning(a, more[i]);
      assert more[..i + 1] == more[..i] + [more[i]];
      if more[i] in seen {
        assert more[i] !in more[..i];
        continue;
      }
      seen := seen + {more[i]};
      merged := merged + [more[i]];
      assert merged == a + (Filter(more[..i], NotIn(a)) + [more[i]]);
    }
    assert more[..|more|] == more;
  }

  lemma EmptyFilter(keep: string -> bool)
    ensures Filter([], keep) == []
  {
  }

  lemma NotInMeaning(s: seq<string>, x: string)
    ensures NotIn(s)(x) <==> x !in s
  {
  }

  lemma FilterNext(s: seq<string>, i: nat, keep: string -> bool)
    requires i < |s|
    ensures Filter(s[..i + 1], keep) == if keep(s[i]) then Filter(s[..i], keep) + [s[i]] else Filter(s[..i], keep)
  {
    assert s[..i + 1][..i] == s[..i];
  }

  /** The loop that fills a Go set from a list. */
  method ElementSet(names: seq<string>) returns (s: set<string>)
    ensures forall x :: x in s <==> x in names
  {
    s := {};
    for i := 0 to |names|
      invariant forall x :: x in s <==> x in names[..i]
    {
      s := s + {names[i]};
      assert names[..i + 1] == names[..i] + [names[i]];
    }
    assert names[..|names|] == names;
  }

  lemma {:induction false} FilterCongruence(s: seq<string>, f: string -> bool, g: string -> bool)
    requires forall x :: f(x) == g(x)
    ensures Filter(s, f) == Filter(s, g)
  {
    if s != [] { FilterCongruence(s[..|s| - 1], f, g); }
  }

  method SubtractModelNames(base: seq<string>, removed: seq<string>) returns (r: seq<string>)
    ensures r == Subtract(NormalizeModelNames(base), NormalizeModelNames(removed))
  {
    var removeSet := ElementSet(NormalizeModelNames(removed));
    r := Filter(NormalizeModelNames(base), x => x !in removeSet);
    FilterCongruence(NormalizeModelNames(base), x => x !in removeSet, NotIn(NormalizeModelNames(removed)));
  }

  method IntersectModelNames(base: seq<string>, allowed: seq<string>) returns (r: seq<string>)
    ensures r == Intersect(NormalizeModelNames(base), NormalizeModelNames(allowed))
  {
    var allowedSet := ElementSet(NormalizeModelNames(allowed));
    r := Filter(NormalizeModelNames(base), x => x in allowedSet);
    FilterCongruence(NormalizeModelNames(base), x => x in allowedSet, In(NormalizeModelNames(allowed)));
  }

  // ----- Storing a list in the comma-separated models column ---------------------------

  /** `Channel.GetModels`. */
  function GetModels(models: string): seq<string> {
    if models == "" then [] else Split(Trim(models, c => c == ','), ',')
  }

  /** The channel's own list of names. */
  function LocalModels(models: string): seq<string> {
    NormalizeModelNames(GetModels(models))
  }

  predicate CommaFree(s: seq<string>) {
    forall i :: 0 <= i < |s| ==> ',' !in s[i]
  }

  lemma {:induction false} TrimLeftKeepsAbsence(s: string, cut: char -> bool, c: char)
    requires c !in s
    ensures c !in TrimLeft(s, cut)
  {
    if s != "" && cut(s[0]) { TrimLeftKeepsAbsence(s[1..], cut, c); }
  }

  lemma {:induction false} TrimRightKeepsAbsence(s: string, cut: char -> bool, c: char)
    requires c !in s
    ensures c !in TrimRight(s, cut)
  {
    if s != "" && cut(s[|s| - 1]) { TrimRightKeepsAbsence(s[..|s| - 1], cut, c); }
  }

  /** A stored list holds no name with a comma. */
  lemma LocalModelsAreCommaFree(models: string)
    ensures Normal(LocalModels(models)) && CommaFree(LocalModels(models))
  {
    hide NormalizeModelNames, TrimLeft, TrimRight, IsName;
    var parts := GetModels(models);
    NormalizedNormal(parts);
    forall i | 0 <= i < |LocalModels(models)|
      ensures ',' !in LocalModels(models)[i]
    {
      var x := LocalModels(models)[i];
      assert x in LocalModels(models);
      NormalizedMembers(parts, x);
      var j :| 0 <= j < |parts| && TrimSpace(parts[j]) == x;
      TrimLeftKeepsAbsence(parts[j], IsSpace, ',');
      TrimRightKeepsAbsence(TrimLeft(parts[j], IsSpace), IsSpace, ',');
    }
  }

  lemma {:induction false} JoinEnds(s: seq<string>, sep: char)
    requires s != [] && forall i :: 0 <= i < |s| ==> s[i] != "" && sep !in s[i]
    ensures Join(s, sep) != "" && Join(s, sep)[0] != sep
    ensures Join(s, sep)[|Join(s, sep)| - 1] != sep
  {
    assert s[0][0] in s[0] && s[0][|s[0]| - 1] in s[0];
    if |s| > 1 { JoinEnds(s[1..], sep); }
  }

  /** ROUND TRIP. Storing a normal list and reading it back gives the list if and only if no name in
      it holds a comma. */
  lemma StoredListReadsBackIff(s: seq<string>)
    requires Normal(s)
    ensures LocalModels(Join(s, ',')) == s <==> CommaFree(s)
  {
    var joined := Join(s, ',');
    LocalModelsAreCommaFree(joined);
    if CommaFree(s) {
      if s == [] {
        assert GetModels(joined) == [];
      } else {
        JoinEnds(s, ',');
        TrimTrims(joined, c => c == ',');
        SplitJoin(s, ',');
        assert GetModels(joined) == s;
      }
      NormalIsFixed(s);
    }
  }

  /** A name without a comma survives being stored, whatever it is stored with. */
  lemma CommaFreeNameIsStored(s: seq<string>, x: string)
    requires Normal(s) && x in s && ',' !in x
    ensures x in LocalModels(Join(s, ','))
  {
    hide NormalizeModelNames, Split, Join, TrimLeft, TrimRight;
    var joined, isComma := Join(s, ','), c => c == ',';
    PartOfJoin(s, ',', x);
    TrimLeftKeepsPieces(joined, isComma, ',', x);
    TrimRightKeepsPieces(TrimLeft(joined, isComma), isComma, ',', x);
    if joined == "" { EmptySplit(','); }
    var parts := GetModels(joined);
    assert x in parts;
    var i :| 0 <= i < |parts| && parts[i] == x;
    assert TrimSpace(parts[i]) == x;
    NormalizedMembers(parts, x);
  }

  lemma EmptySplit(sep: char)
    ensures Split("", sep) == [""]
  {
  }

  // ----- Detecting pending changes -------------------------------------------------

  const REGEX_PREFIX := "regex:"

  predicate IsPattern(entry: string) {
    |entry| >= |REGEX_PREFIX| && entry[..|REGEX_PREFIX|] == REGEX_PREFIX
  }

  /** An entry of the ignore list is a name or a `regex:` pattern; `matches(pattern, name)` stands for
      a pattern that compiles and matches. */
  predicate EntryMatches(matches: (string, string) -> bool, entry: string, name: string) {
    if IsPattern(entry) then matches(TrimSpace(entry[|REGEX_PREFIX|..]), name) else entry == name
  }

  predicate Ignored(matches: (string, string) -> bool, ignored: seq<string>, name: string) {
    exists entry :: entry in ignored && EntryMatches(matches, entry, name)
  }

  /** An entry written `regex:` and a pattern matches what the trimmed pattern matches, an empty one too;
      any other entry matches the one name it is. */
  lemma EntryMatchesMeans(matches: (string, string) -> bool, body: string, entry: string, name: string)
    ensures EntryMatches(matches, "regex:" + body, name) == matches(TrimSpace(body), name)
    ensures (forall b :: entry != "regex:" + b) ==> EntryMatches(matches, entry, name) == (entry == name)
  {
    hide TrimSpace;
    assert ("regex:" + body)[..6] == "regex:" && ("regex:" + body)[6..] == body;
    if IsPattern(entry) { assert entry == "regex:" + entry[6..]; }
  }

  datatype Pending = Pending(add: seq<string>, remove: seq<string>)

  /** What a detection looks at: the normal lists of local, upstream and ignored names, the redirects
      of the model mapping (source to target), and the matcher. */
  datatype View = View(local: seq<string>, upstream: seq<string>, ignored: seq<string>,
                       mapping: map<string, string>, matches: (string, string) -> bool)

  predicate NormalView(v: View) {
    Normal(v.local) && Normal(v.upstream) && Normal(v.ignored)
  }

  /** The upstream name is served neither locally nor as a redirect target. */
  predicate Uncovered(v: View, name: string) {
    name !in v.local && name !in v.mapping.Values
  }

  function Addable(v: View): string -> bool {
    x => Uncovered(v, x) && !Ignored(v.matches, v.ignored, x)
  }

  function Removable(v: View): string -> bool {
    x => x !in v.mapping.Keys && x !in v.upstream
  }

  function PendingChanges(v: View): Pending {
    Pending(Filter(v.upstream, Addable(v)), Filter(v.local, Removable(v)))
  }

  /** The pending lists, read out. */
  lemma PendingMeaning(v: View)
    requires NormalView(v)
    ensures Normal(PendingChanges(v).add) && Normal(PendingChanges(v).remove)
    ensures forall x :: x in PendingChanges(v).add <==>
              x in v.upstream && x !in v.local && x !in v.mapping.Values && !Ignored(v.matches, v.ignored, x)
    ensures forall x :: x in PendingChanges(v).remove <==>
              x in v.local && x !in v.upstream && x !in v.mapping.Keys
  {
    hide IsName, Filter, Ignored;
    FilterSelects(v.upstream, Addable(v));
    FilterSelects(v.local, Removable(v));
    FilterKeepsNormal(v.upstream, Addable(v));
    FilterKeepsNormal(v.local, Removable(v));
  }

  method CollectPendingUpstreamModelChangesFromModels(
      localModels: seq<string>, upstreamModels: seq<string>, ignoredModels: seq<string>,
      mapping: map<string, string>, matches: (string, string) -> bool)
    returns (add: seq<string>, remove: seq<string>)
    ensures Pending(add, remove) ==
            PendingChanges(View(NormalizeModelNames(localModels), NormalizeModelNames(upstreamModels),
                                NormalizeModelNames(ignoredModels), mapping, matches))
  {
    hide NormalizeModelNames, Filter, Normal, Ignored;
    var local := NormalizeModelNames(localModels);
    var upstream := NormalizeModelNames(upstreamModels);
    var ignored := NormalizeModelNames(ignoredModels);
    NormalizedNormal(localModels);
    NormalizedNormal(upstreamModels);
    NormalizedNormal(ignoredModels);
    var localSet := ElementSet(local);
    var upstreamSet := ElementSet(upstream);
    var sources, targets := RedirectSets(mapping);
    var covered := localSet + targets;
    ghost var v := View(local, upstream, ignored, mapping, matches);
    var pendingAdd := Filter(upstream, x => x !in covered && !Ignored(matches, ignored, x));
    var pendingRemove := Filter(local, x => x !in sources && x !in upstreamSet);
    FilterCongruence(upstream, x => x !in covered && !Ignored(matches, ignored, x), Addable(v));
    FilterCongruence(local, x => x !in sources && x !in upstreamSet, Removable(v));
    PendingMeaning(v);
    NormalIsFixed(pendingAdd);
    NormalIsFixed(pendingRemove);
    return NormalizeModelNames(pendingAdd), NormalizeModelNames(pendingRemove);
  }

  /** The loop over the model mapping. Go visits the entries in an arbitrary order. */
  method RedirectSets(mapping: map<string, string>) returns (sources: set<string>, targets: set<string>)
    ensures sources == mapping.Keys && targets == mapping.Values
  {
    sources, targets := {}, {};
    var todo := mapping.Keys;
    while todo != {}
      invariant todo <= mapping.Keys
      invariant sources == mapping.Keys - todo
      invariant targets == set s | s in mapping.Keys - todo :: mapping[s]
      decreases todo
    {
      var source :| source in todo;
      sources := sources + {source};
      targets := targets + {mapping[source]};
      todo := todo - {source};
    }
  }

  // ----- The channel row --------------------------------------------------------------

  /** The columns and settings the synchronisation reads and writes. */
  datatype Channel = Channel(models: string, detected: seq<string>, removed: seq<string>,
                             ignored: seq<string>, lastCheck: int, autoSync: bool)

  /** What the upstream looks like to a channel during one check. */
  datatype Upstream = Upstream(names: seq<string>, mapping: map<string, string>, matches: (string, string) -> bool)

  function ViewOf(c: Channel, u: Upstream): View {
    View(LocalModels(c.models), NormalizeModelNames(u.names), NormalizeModelNames(c.ignored), u.mapping, u.matches)
  }

  lemma ViewIsNormal(c: Channel, u: Upstream)
    ensures NormalView(ViewOf(c, u)) && CommaFree(LocalModels(c.models))
  {
    hide Normal, LocalModels, NormalizeModelNames, CommaFree;
    LocalModelsAreCommaFree(c.models);
    NormalizedNormal(u.names);
    NormalizedNormal(c.ignored);
  }

  /** The outcome of applying an operator's choice. */
  datatype Applied = Applied(channel: Channel, added: seq<string>, removedNames: seq<string>,
                             remaining: seq<string>, remainingRemove: seq<string>, changed: bool)

  function Added(c: Channel, add: seq<string>): seq<string> {
    Intersect(NormalizeModelNames(add), NormalizeModelNames(c.detected))
  }

  function Removed(c: Channel, add: seq<string>, remove: seq<string>): seq<string> {
    Subtract(Intersect(NormalizeModelNames(remove), NormalizeModelNames(c.removed)), Added(c, add))
  }

  /** The new local list: the old one without the removed names, then the added ones. */
  function NextModels(c: Channel, add: seq<string>, remove: seq<string>): seq<string> {
    Subtract(Merge(LocalModels(c.models), Added(c, add)), Removed(c, add, remove))
  }

  function ApplyChoice(c: Channel, add: seq<string>, ignore: seq<string>, remove: seq<string>, now: int): Applied {
    var added, skipped := Added(c, add), Added(c, ignore);
    var gone, next := Removed(c, add, remove), NextModels(c, add, remove);
    var merged := Merge(NormalizeModelNames(c.ignored), skipped);
    var remaining := Subtract(NormalizeModelNames(c.detected), added + skipped);
    var remainingRemove := Subtract(NormalizeModelNames(c.removed), gone);
    var changed := LocalModels(c.models) != next;
    Applied(c.(models := if changed then Join(next, ',') else c.models,
               detected := remaining, removed := remainingRemove,
               ignored := if added != [] then Subtract(merged, added) else merged,
               lastCheck := now),
            added, gone, remaining, remainingRemove, changed)
  }

  datatype CheckResult = CheckResult(channel: Channel, changed: bool, autoAdded: nat, failed: bool)

  /** One check: skipped when too recent, only stamped when the fetch fails, otherwise a detection that
      is recorded, or whose additions are applied at once under auto-sync. */
  function Check(c: Channel, fetched: Option<Upstream>, force: bool, allowAutoApply: bool,
                 minInterval: int, now: int): (r: CheckResult)
  {
    if !force && c.lastCheck > 0 && now - c.lastCheck < minInterval then CheckResult(c, false, 0, false)
    else if fetched.None? then CheckResult(c.(lastCheck := now), false, 0, true)
    else
      var pending := PendingChanges(ViewOf(c, fetched.value));
      var origin := LocalModels(c.models);
      var stamped := c.(lastCheck := now, removed := pending.remove);
      if allowAutoApply && c.autoSync && pending.add != [] then
        var merged := Merge(origin, pending.add);
        CheckResult(stamped.(models := if |merged| > |origin| then Join(merged, ',') else c.models, detected := []),
                    |merged| > |origin|, |merged| - |origin|, false)
      else CheckResult(stamped.(detected := pending.add), false, 0, false)
  }

  /** Every list an application handles is normal, so normalizing it again changes nothing. */
  lemma ChoiceListsAreNormal(c: Channel, add: seq<string>, ignore: seq<string>, remove: seq<string>)
    ensures Settled(NormalizeModelNames(c.detected)) && Settled(NormalizeModelNames(c.removed))
    ensures Settled(NormalizeModelNames(c.ignored)) && Settled(LocalModels(c.models))
    ensures Settled(Added(c, add)) && Settled(Added(c, ignore)) && Settled(Removed(c, add, remove))
    ensures Settled(Intersect(NormalizeModelNames(remove), NormalizeModelNames(c.removed)))
    ensures Settled(Merge(NormalizeModelNames(c.ignored), Added(c, ignore)))
    ensures forall x :: x in Removed(c, add, remove) ==> x !in Added(c, add)
  {
    hide NormalizeModelNames, Normal, Filter, GetModels, Settled;
    SettledNormalized(c.detected);
    SettledNormalized(c.removed);
    SettledNormalized(c.ignored);
    SettledNormalized(GetModels(c.models));
    NormalizedNormal(add);
    NormalizedNormal(ignore);
    NormalizedNormal(remove);
    NormalizedNormal(c.ignored);
    var asked := Intersect(NormalizeModelNames(remove), NormalizeModelNames(c.removed));
    IntersectNormal(NormalizeModelNames(add), NormalizeModelNames(c.detected));
    IntersectNormal(NormalizeModelNames(ignore), NormalizeModelNames(c.detected));
    IntersectNormal(NormalizeModelNames(remove), NormalizeModelNames(c.removed));
    SubtractNormal(asked, Added(c, add));
    MergeNormal(NormalizeModelNames(c.ignored), Added(c, ignore));
    SettledNormal(Added(c, add));
    SettledNormal(Added(c, ignore));
    SettledNormal(asked);
    SettledNormal(Removed(c, add, remove));
    SettledNormal(Merge(NormalizeModelNames(c.ignored), Added(c, ignore)));
  }

  predicate Settled(s: seq<string>) {
    Normal(s) && NormalizeModelNames(s) == s
  }

  lemma SettledNormal(s: seq<string>)
    requires Normal(s)
    ensures Settled(s)
  {
    NormalIsFixed(s);
  }

  lemma SettledNormalized(s: seq<string>)
    ensures Settled(NormalizeModelNames(s))
  {
    NormalizedNormal(s);
    NormalIsFixed(NormalizeModelNames(s));
  }

  /** Additions win over removals of the same name. */
  method ApplySelectedModelChanges(origin: seq<string>, add: seq<string>, remove: seq<string>)
    returns (next: seq<string>)
    ensures var a := NormalizeModelNames(add);
            next == Subtract(Merge(NormalizeModelNames(origin), a), Subtract(NormalizeModelNames(remove), a))
  {
    hide NormalizeModelNames, Normal, Filter, Settled;
    var normalizedAdd := NormalizeModelNames(add);
    var normalizedRemove := SubtractModelNames(NormalizeModelNames(remove), normalizedAdd);
    var merged := MergeModelNames(origin, normalizedAdd);
    SelectedListsAreSettled(origin, add, remove);
    next := SubtractModelNames(merged, normalizedRemove);
  }

  lemma SelectedListsAreSettled(origin: seq<string>, add: seq<string>, remove: seq<string>)
    ensures var o, a, r := NormalizeModelNames(origin), NormalizeModelNames(add), NormalizeModelNames(remove);
            && NormalizeModelNames(a) == a && NormalizeModelNames(r) == r
            && NormalizeModelNames(Subtract(r, a)) == Subtract(r, a)
            && NormalizeModelNames(Merge(o, a)) == Merge(o, a)
  {
    hide NormalizeModelNames, Normal, Filter;
    var o, a, r := NormalizeModelNames(origin), NormalizeModelNames(add), NormalizeModelNames(remove);
    NormalizedNormal(origin);
    NormalizedNormal(add);
    NormalizedNormal(remove);
    SubtractNormal(r, a);
    MergeNormal(o, a);
    NormalIsFixed(a);
    NormalIsFixed(r);
    NormalIsFixed(Subtract(r, a));
    NormalIsFixed(Merge(o, a));
  }

  /** On settled lists that do not overlap the changes are as selected. */
  lemma DisjointChanges(origin: seq<string>, add: seq<string>, remove: seq<string>)
    requires Settled(origin) && Settled(add) && Settled(remove) && forall x :: x in remove ==> x !in add
    ensures var a := NormalizeModelNames(add);
            Subtract(Merge(NormalizeModelNames(origin), a), Subtract(NormalizeModelNames(remove), a))
            == Subtract(Merge(origin, add), remove)
  {
    hide NormalizeModelNames, Normal, Filter;
    FilterSelects(remove, NotIn(add));
  }

  class ChannelRow {
    var models: string
    var detected: seq<string>
    var removed: seq<string>
    var ignored: seq<string>
    var lastCheck: int
    var autoSync: bool

    ghost function State(): Channel
      reads this
    {
      Channel(models, detected, removed, ignored, lastCheck, autoSync)
    }

    constructor (c: Channel)
      ensures State() == c
    {
      models, detected, removed, ignored := c.models, c.detected, c.removed, c.ignored;
      lastCheck, autoSync := c.lastCheck, c.autoSync;
    }

    method ApplyChannelUpstreamModelUpdates(add: seq<string>, ignore: seq<string>, remove: seq<string>, now: int)
      returns (added: seq<string>, gone: seq<string>, remaining: seq<string>, remainingRemove: seq<string>,
               changed: bool)
      modifies this
      ensures Applied(State(), added, gone, remaining, remainingRemove, changed)
              == ApplyChoice(old(State()), add, ignore, remove, now)
    {
      hide NormalizeModelNames, GetModels, Normal, Filter, Intersect, Subtract, Merge, Join;
      ghost var c := State();
      ChoiceListsAreNormal(c, add, ignore, remove);
      var pendingAdd := NormalizeModelNames(detected);
      var pendingRemove := NormalizeModelNames(removed);
      added := IntersectModelNames(add, pendingAdd);
      var skipped := IntersectModelNames(ignore, pendingAdd);
      assert added == Added(c, add) && skipped == Added(c, ignore);
      gone := IntersectModelNames(remove, pendingRemove);
      gone := SubtractModelNames(gone, added);
      assert gone == Removed(c, add, remove);

      var origin := NormalizeModelNames(GetModels(models));
      var next := ApplySelectedModelChanges(origin, added, gone);
      DisjointChanges(origin, added, gone);
      changed := origin != next;
      if changed {
        models := Join(next, ',');
      }
      ignored := MergeModelNames(ignored, skipped);
      if |added| > 0 {
        ignored := SubtractModelNames(ignored, added);
      }
      remaining := SubtractModelNames(pendingAdd, added + skipped);
      RemainderSpec(pendingAdd, added, skipped);
      remainingRemove := SubtractModelNames(pendingRemove, gone);
      detected := remaining;
      removed := remainingRemove;
      lastCheck := now;
    }

    method CheckAndPersistChannelUpstreamModelUpdates(fetched: Option<Upstream>, force: bool, allowAutoApply: bool,
                                                      minInterval: int, now: int)
      returns (changed: bool, autoAdded: nat, failed: bool)
      modifies this
      ensures CheckResult(State(), changed, autoAdded, failed)
              == Check(old(State()), fetched, force, allowAutoApply, minInterval, now)
    {
      hide NormalizeModelNames, GetModels, Normal, Filter, PendingChanges, Join, Merge, Settled;
      changed, autoAdded, failed := false, 0, false;
      if !force && lastCheck > 0 && now - lastCheck < minInterval {
        return;
      }
      if fetched.None? {
        lastCheck := now;
        failed := true;
        return;
      }
      var pendingAdd, pendingRemove := CollectPendingUpstreamModelChangesFromModels(
        GetModels(models), fetched.value.names, ignored, fetched.value.mapping, fetched.value.matches);
      lastCheck := now;
      if allowAutoApply && autoSync && |pendingAdd| > 0 {
        var origin := NormalizeModelNames(GetModels(models));
        AutoSyncListsAreSettled(old(State()), fetched.value);
        var merged := MergeModelNames(origin, pendingAdd);
        if |merged| > |origin| {
          models := Join(merged, ',');
          autoAdded := |merged| - |origin|;
          changed := true;
        }
        detected := [];
      } else {
        detected := pendingAdd;
      }
      removed := pendingRemove;
    }
  }

  lemma AutoSyncListsAreSettled(c: Channel, u: Upstream)
    ensures var l, p := LocalModels(c.models), PendingChanges(ViewOf(c, u)).add;
            && NormalizeModelNames(l) == l && NormalizeModelNames(p) == p
            && |Merge(l, p)| >= |l|
  {
    hide NormalizeModelNames, LocalModels, Normal, PendingChanges;
    ViewIsNormal(c, u);
    PendingMeaning(ViewOf(c, u));
    LocalModelsAreCommaFree(c.models);
    NormalIsFixed(LocalModels(c.models));
    NormalIsFixed(PendingChanges(ViewOf(c, u)).add);
  }

  lemma RemainderSpec(pending: seq<string>, added: seq<string>, skipped: seq<string>)
    requires Normal(pending) && Normal(added) && Normal(skipped)
    ensures Subtract(NormalizeModelNames(pending), NormalizeModelNames(added + skipped))
            == Subtract(pending, added + skipped)
  {
    hide NormalizeModelNames, Normal, Filter;
    NormalIsFixed(pending);
    var both := NormalizeModelNames(added + skipped);
    forall x
      ensures x in both <==> x in added + skipped
    {
      NormalMembers(added, skipped, x);
    }
    FilterCongruence(pending, NotIn(both), NotIn(added + skipped));
  }

  lemma NormalMembers(a: seq<string>, b: seq<string>, x: string)
    requires Normal(a) && Normal(b)
    ensures x in NormalizeModelNames(a + b) <==> x in a + b
  {
    hide NormalizeModelNames, TrimSpace;
    NormalizedMembers(a + b, x);
    var s := a + b;
    forall i | 0 <= i < |s|
      ensures IsName(s[i])
    {
    }
    if x in s {
      var i :| 0 <= i < |s| && s[i] == x;
      assert TrimSpace(s[i]) == x;
    }
  }
}
