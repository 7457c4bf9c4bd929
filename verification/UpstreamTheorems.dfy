/** What the upstream synchronisation guarantees: how an operator's choice splits the pending names,
    when one sync reaches a fixed point, and what every run of checks and choices keeps. */
module UpstreamTheorems {
  import opened Text
  import opened UpstreamSync

  // ----- One application --------------------------------------------------------------

  /** The lists of an application, read out as sets. */
  lemma ChoiceMeaning(c: Channel, add: seq<string>, ignore: seq<string>, remove: seq<string>, now: int)
    ensures var r := ApplyChoice(c, add, ignore, remove, now);
            && Normal(r.added) && Normal(r.remaining) && Normal(r.remainingRemove) && Normal(r.channel.ignored)
            && Normal(NextModels(c, add, remove))
    ensures forall x :: x in Added(c, add) <==> x in NormalizeModelNames(add) && x in NormalizeModelNames(c.detected)
    ensures forall x :: x in Added(c, ignore) <==>
              x in NormalizeModelNames(ignore) && x in NormalizeModelNames(c.detected)
    ensures forall x :: x in Removed(c, add, remove) <==>
              x in NormalizeModelNames(remove) && x in NormalizeModelNames(c.removed) && x !in Added(c, add)
    ensures forall x :: x in NextModels(c, add, remove) <==>
              (x in LocalModels(c.models) || x in Added(c, add)) && x !in Removed(c, add, remove)
    ensures var r := ApplyChoice(c, add, ignore, remove, now);
            && (forall x :: x in r.remaining <==>
                  x in NormalizeModelNames(c.detected) && x !in r.added && x !in Added(c, ignore))
            && (forall x :: x in r.remainingRemove <==> x in NormalizeModelNames(c.removed) && x !in r.removedNames)
            && (forall x :: x in r.channel.ignored <==>
                  (x in NormalizeModelNames(c.ignored) || x in Added(c, ignore)) && x !in r.added)
  {
    hide NormalizeModelNames, LocalModels, Normal, Filter, Join;
    NormalizedNormal(add);
    NormalizedNormal(ignore);
    NormalizedNormal(remove);
    NormalizedNormal(c.detected);
    NormalizedNormal(c.removed);
    NormalizedNormal(c.ignored);
    LocalModelsAreCommaFree(c.models);
    var a, g := Added(c, add), Added(c, ignore);
    var asked := Intersect(NormalizeModelNames(remove), NormalizeModelNames(c.removed));
    IntersectNormal(NormalizeModelNames(add), NormalizeModelNames(c.detected));
    IntersectNormal(NormalizeModelNames(ignore), NormalizeModelNames(c.detected));
    IntersectNormal(NormalizeModelNames(remove), NormalizeModelNames(c.removed));
    SubtractNormal(asked, a);
    MergeNormal(LocalModels(c.models), a);
    SubtractNormal(Merge(LocalModels(c.models), a), Removed(c, add, remove));
    SubtractNormal(NormalizeModelNames(c.detected), a + g);
    SubtractNormal(NormalizeModelNames(c.removed), Removed(c, add, remove));
    MergeNormal(NormalizeModelNames(c.ignored), g);
    SubtractNormal(Merge(NormalizeModelNames(c.ignored), g), a);
  }

  /** CONSERVATION. Whatever is requested, every pending addition ends up in exactly one of three
      places, accepted, ignored or still pending, and nothing else does. */
  lemma PendingAddsArePartitioned(c: Channel, add: seq<string>, ignore: seq<string>, remove: seq<string>, now: int,
                                  x: string)
    ensures var r := ApplyChoice(c, add, ignore, remove, now);
            var accepted, skipped := x in r.added, x in Added(c, ignore) && x !in r.added;
            if x in NormalizeModelNames(c.detected)
            then (accepted || skipped || x in r.remaining)
                 && !(accepted && skipped) && !(accepted && x in r.remaining) && !(skipped && x in r.remaining)
            else !accepted && !skipped && x !in r.remaining
    ensures var r := ApplyChoice(c, add, ignore, remove, now);
            x in Added(c, ignore) && x !in r.added ==> x in r.channel.ignored
    ensures var r := ApplyChoice(c, add, ignore, remove, now); x in r.added ==> x !in r.channel.ignored
  {
    ChoiceMeaning(c, add, ignore, remove, now);
  }

  lemma {:induction false} FilterConcat(a: seq<string>, b: seq<string>, keep: string -> bool)
    ensures Filter(a + b, keep) == Filter(a, keep) + Filter(b, keep)
  {
    if b == [] {
      assert a + b == a;
    } else {
      FilterConcat(a, b[..|b| - 1], keep);
      assert (a + b)[..|a + b| - 1] == a + b[..|b| - 1];
    }
  }

  /** The new list is the old one without the removed names, in its order, then the new names in theirs. */
  lemma NextModelsShape(c: Channel, add: seq<string>, remove: seq<string>)
    ensures NextModels(c, add, remove) ==
            Subtract(LocalModels(c.models), Removed(c, add, remove)) + Subtract(Added(c, add), LocalModels(c.models))
  {
    hide LocalModels, Added, Removed, Normal, NormalizeModelNames;
    ChoiceMeaning(c, add, [], remove, 0);
    var l, a, r := LocalModels(c.models), Added(c, add), Removed(c, add, remove);
    FilterConcat(l, Subtract(a, l), NotIn(r));
    FilterSelects(a, NotIn(l));
    FilterSelects(Subtract(a, l), NotIn(r));
  }

  /** The stored list reads back as intended if and only if no accepted name holds a comma. */
  lemma AppliedListReadsBackIff(c: Channel, add: seq<string>, ignore: seq<string>, remove: seq<string>, now: int)
    ensures LocalModels(ApplyChoice(c, add, ignore, remove, now).channel.models) == NextModels(c, add, remove)
       <==> CommaFree(Added(c, add))
  {
    hide LocalModels, Added, Removed, NextModels, NormalizeModelNames, Join, IsName;
    ChoiceMeaning(c, add, ignore, remove, now);
    LocalModelsAreCommaFree(c.models);
    var next, a := NextModels(c, add, remove), Added(c, add);
    StoredListReadsBackIff(next);
    assert CommaFree(next) <==> CommaFree(a) by {
      CommaFreeMembers(next);
      CommaFreeMembers(a);
      CommaFreeMembers(LocalModels(c.models));
    }
  }

  lemma CommaFreeMembers(s: seq<string>)
    ensures CommaFree(s) <==> forall x :: x in s ==> ',' !in x
  {
    if CommaFree(s) {
      forall x | x in s
        ensures ',' !in x
      {
        var i :| 0 <= i < |s| && s[i] == x;
      }
    } else {
      var i :| 0 <= i < |s| && ',' in s[i];
      assert s[i] in s;
    }
  }

  /** What an application stores: a name is still pending addition exactly when it was and is in neither
      the add nor the ignore request, and still pending removal exactly when it was and is not requested
      for removal, or is accepted; both in their old order. The time is stamped, the sync mode kept, and a
      change is reported and the text rewritten exactly when the list changes. */
  lemma ChoiceStores(c: Channel, add: seq<string>, ignore: seq<string>, remove: seq<string>, now: int)
    ensures var r := ApplyChoice(c, add, ignore, remove, now);
            && (forall x :: x in r.channel.detected <==>
                  && x in NormalizeModelNames(c.detected)
                  && x !in NormalizeModelNames(add) && x !in NormalizeModelNames(ignore))
            && (forall x :: x in r.channel.removed <==>
                  && x in NormalizeModelNames(c.removed)
                  && (x !in NormalizeModelNames(remove)
                      || (x in NormalizeModelNames(add) && x in NormalizeModelNames(c.detected))))
            && InOrderOf(r.channel.detected, NormalizeModelNames(c.detected))
            && InOrderOf(r.channel.removed, NormalizeModelNames(c.removed))
            && r.channel.detected == r.remaining && r.channel.removed == r.remainingRemove
            && r.channel.lastCheck == now && r.channel.autoSync == c.autoSync
            && (r.changed <==> NextModels(c, add, remove) != LocalModels(c.models))
            && (!r.changed ==> r.channel.models == c.models)
  {
    hide NormalizeModelNames, LocalModels, Normal, Filter, NextModels;
    ChoiceMeaning(c, add, ignore, remove, now);
    StoredLists(c, add, ignore, remove, now);
  }

  /** The list is what is left of the other when some names are dropped. */
  ghost predicate InOrderOf(s: seq<string>, all: seq<string>) {
    exists keep: string -> bool :: s == Filter(all, keep)
  }

  lemma StoredLists(c: Channel, add: seq<string>, ignore: seq<string>, remove: seq<string>, now: int)
    ensures var r := ApplyChoice(c, add, ignore, remove, now);
            && r.removedNames == Removed(c, add, remove) && r.added == Added(c, add)
            && InOrderOf(r.channel.detected, NormalizeModelNames(c.detected))
            && InOrderOf(r.channel.removed, NormalizeModelNames(c.removed))
  {
    hide NormalizeModelNames, LocalModels, Filter;
    var r := ApplyChoice(c, add, ignore, remove, now);
    assert r.channel.detected == Filter(NormalizeModelNames(c.detected), NotIn(Added(c, add) + Added(c, ignore)));
    assert r.channel.removed == Filter(NormalizeModelNames(c.removed), NotIn(Removed(c, add, remove)));
  }

  /** A name of the new list without a comma is in the stored list. */
  lemma AppliedKeepsName(c: Channel, add: seq<string>, ignore: seq<string>, remove: seq<string>, now: int, x: string)
    requires x in NextModels(c, add, remove) && ',' !in x
    ensures x in LocalModels(ApplyChoice(c, add, ignore, remove, now).channel.models)
  {
    hide NormalizeModelNames, LocalModels, Normal, NextModels, Join, Added, Removed;
    ChoiceMeaning(c, add, ignore, remove, now);
    CommaFreeNameIsStored(NextModels(c, add, remove), x);
  }

  /** Whatever is requested, an accepted name is out of the ignore list, and in the stored list if and only
      if it holds no comma, even if it was also requested as ignored or as removed; and only names pending
      removal leave the list. If no accepted name holds a comma, all names removed are gone and only
      names pending addition are new. */
  lemma AcceptedEndsUpLocal(c: Channel, add: seq<string>, ignore: seq<string>, remove: seq<string>, now: int)
    ensures var r := ApplyChoice(c, add, ignore, remove, now);
            var before, after := LocalModels(c.models), LocalModels(r.channel.models);
            && Normal(after)
            && (forall x :: x in r.added ==> x !in r.channel.ignored && (x in after <==> ',' !in x))
            && (forall x :: x in before && x !in after ==> x in NormalizeModelNames(c.removed))
            && (CommaFree(r.added) ==>
                  && (forall x :: x in r.removedNames ==> x !in after)
                  && (forall x :: x in after && x !in before ==> x in NormalizeModelNames(c.detected)))
  {
    hide LocalModels, Added, Removed, NextModels, NormalizeModelNames, Join, Normal, ApplyChoice, CommaFree;
    var r := ApplyChoice(c, add, ignore, remove, now);
    var before, after := LocalModels(c.models), LocalModels(r.channel.models);
    AppliedLists(c, add, ignore, remove, now);
    AppliedListReadsBackIff(c, add, ignore, remove, now);
    ChoiceMeaning(c, add, ignore, remove, now);
    LocalModelsAreCommaFree(r.channel.models);
    LocalModelsAreCommaFree(c.models);
    CommaFreeMembers(after);
    CommaFreeMembers(before);
    forall x | x in NextModels(c, add, remove) && ',' !in x
      ensures x in after
    {
      AppliedKeepsName(c, add, ignore, remove, now, x);
    }
  }

  lemma AppliedLists(c: Channel, add: seq<string>, ignore: seq<string>, remove: seq<string>, now: int)
    ensures var r := ApplyChoice(c, add, ignore, remove, now);
            r.added == Added(c, add) && r.removedNames == Removed(c, add, remove)
  {
  }

  // ----- The fixed point -----------------------------------------------------------------

  /** No name that the ignore list holds back loses all its matching entries when the pending
      additions are struck from that list. */
  ghost predicate StaysIgnored(v: View) {
    forall x :: x in v.upstream && Uncovered(v, x) && Ignored(v.matches, v.ignored, x) ==>
      Ignored(v.matches, Subtract(v.ignored, PendingChanges(v).add), x)
  }

  /** The view after every pending change of v has been applied, the list stored and read back. */
  ghost predicate SyncedView(v: View, w: View) {
    var p := PendingChanges(v);
    && NormalView(v) && NormalView(w)
    && w.upstream == v.upstream && w.mapping == v.mapping && w.matches == v.matches
    && (forall x :: x in w.ignored <==> x in v.ignored && x !in p.add)
    && CommaFree(w.local) && CommaFree(v.local)
    && (CommaFree(p.add) <==> forall x :: x in w.local <==> (x in v.local || x in p.add) && x !in p.remove)
  }

  lemma IgnoredByMembers(matches: (string, string) -> bool, a: seq<string>, b: seq<string>, name: string)
    requires forall x :: x in a <==> x in b
    ensures Ignored(matches, a, name) == Ignored(matches, b, name)
  {
    hide EntryMatches;
  }

  lemma IgnoredMonotone(matches: (string, string) -> bool, a: seq<string>, b: seq<string>, name: string)
    requires forall x :: x in a ==> x in b
    requires Ignored(matches, a, name)
    ensures Ignored(matches, b, name)
  {
    hide EntryMatches;
  }

  lemma NothingPending(v: View)
    requires NormalView(v)
    ensures PendingChanges(v) == Pending([], []) <==>
            && (forall x :: x in v.upstream && Uncovered(v, x) ==> Ignored(v.matches, v.ignored, x))
            && (forall x :: x in v.local ==> x in v.upstream || x in v.mapping.Keys)
  {
    hide Ignored, IsName, Filter;
    FilterSelects(v.upstream, Addable(v));
    FilterSelects(v.local, Removable(v));
    EmptyIff(PendingChanges(v).add);
    EmptyIff(PendingChanges(v).remove);
  }

  lemma EmptyIff(s: seq<string>)
    ensures s == [] <==> forall x :: x !in s
  {
    if s != [] { assert s[0] in s; }
  }

  lemma SyncedImpliesConditions(v: View, w: View)
    requires SyncedView(v, w) && PendingChanges(w) == Pending([], [])
    ensures CommaFree(PendingChanges(v).add) && StaysIgnored(v)
  {
    hide Ignored, IsName, Filter, PendingChanges;
    PendingMeaning(v);
    NothingPending(w);
    var p := PendingChanges(v);
    assert CommaFree(p.add) by {
      if !CommaFree(p.add) {
        var i :| 0 <= i < |p.add| && ',' in p.add[i];
        var x := p.add[i];
        assert x in p.add;
        CommaFreeMembers(w.local);
        assert Uncovered(w, x);
        IgnoredMonotone(v.matches, w.ignored, v.ignored, x);
        assert false;
      }
    }
    var struck := Subtract(v.ignored, p.add);
    SubtractNormal(v.ignored, p.add);
    forall x | x in v.upstream && Uncovered(v, x) && Ignored(v.matches, v.ignored, x)
      ensures Ignored(v.matches, struck, x)
    {
      assert x !in p.add;
      assert Uncovered(w, x);
      IgnoredByMembers(v.matches, w.ignored, struck, x);
    }
  }

  lemma ConditionsImplySynced(v: View, w: View)
    requires SyncedView(v, w) && CommaFree(PendingChanges(v).add) && StaysIgnored(v)
    ensures PendingChanges(w) == Pending([], [])
  {
    hide Ignored, IsName, Filter, PendingChanges;
    PendingMeaning(v);
    NothingPending(w);
    var p := PendingChanges(v);
    var struck := Subtract(v.ignored, p.add);
    SubtractNormal(v.ignored, p.add);
    forall x | x in w.upstream && Uncovered(w, x)
      ensures Ignored(w.matches, w.ignored, x)
    {
      assert x !in p.remove && x !in p.add;
      assert Uncovered(v, x);
      IgnoredByMembers(v.matches, w.ignored, struck, x);
    }
  }

  /** Detecting with force and without auto-apply, then applying every pending addition and removal. */
  function SyncOnce(c: Channel, u: Upstream, t0: int, t1: int): Channel {
    var d := Check(c, Some(u), true, false, 0, t0).channel;
    ApplyChoice(d, NormalizeModelNames(d.detected), [], NormalizeModelNames(d.removed), t1).channel
  }

  lemma SyncOnceGivesSyncedView(c: Channel, u: Upstream, t0: int, t1: int)
    ensures SyncedView(ViewOf(c, u), ViewOf(SyncOnce(c, u, t0, t1), u))
  {
    hide NormalizeModelNames, LocalModels, Normal, NormalView, CommaFree, PendingChanges, ApplyChoice, SyncOnce, Check;
    var v := ViewOf(c, u);
    var p := PendingChanges(v);
    var d := Detection(c, u, t0);
    var e := SyncOnce(c, u, t0, t1);
    ViewIsNormal(c, u);
    ViewIsNormal(e, u);
    PendingBasics(v);
    NormalIsFixed(p.add);
    NormalIsFixed(p.remove);
    SyncOnceUnfolds(c, u, t0, t1);
    ApplyAllMembers(d, p, t1);
    NormalIsFixed(e.ignored);
    ReadBackByMembers(d, p, t1);
  }

  function Detection(c: Channel, u: Upstream, t0: int): Channel {
    Check(c, Some(u), true, false, 0, t0).channel
  }

  lemma SyncOnceUnfolds(c: Channel, u: Upstream, t0: int, t1: int)
    requires var p := PendingChanges(ViewOf(c, u));
             NormalizeModelNames(p.add) == p.add && NormalizeModelNames(p.remove) == p.remove
    ensures var d, p := Detection(c, u, t0), PendingChanges(ViewOf(c, u));
            && d.models == c.models && d.ignored == c.ignored && d.detected == p.add && d.removed == p.remove
            && SyncOnce(c, u, t0, t1) == ApplyChoice(d, p.add, [], p.remove, t1).channel
    ensures NormalizeModelNames([]) == []
  {
    hide ApplyChoice, PendingChanges, ViewOf;
  }

  lemma PendingBasics(v: View)
    requires NormalView(v)
    ensures Normal(PendingChanges(v).add) && Normal(PendingChanges(v).remove)
    ensures var p := PendingChanges(v);
            && (forall x :: x in p.add ==> x in v.upstream && x !in v.local && x !in p.remove)
            && (forall x :: x in p.remove ==> x in v.local && x !in v.mapping.Keys && x !in p.add)
  {
    PendingMeaning(v);
  }

  lemma ReadBackByMembers(d: Channel, p: Pending, t1: int)
    requires forall x :: x in Added(d, p.add) <==> x in p.add
    requires forall x :: x in p.add ==> x !in p.remove
    requires forall x :: x in NextModels(d, p.add, p.remove) <==>
               (x in LocalModels(d.models) || x in p.add) && x !in p.remove
    ensures var after := LocalModels(ApplyChoice(d, p.add, [], p.remove, t1).channel.models);
            CommaFree(p.add) <==>
            forall x :: x in after <==> (x in LocalModels(d.models) || x in p.add) && x !in p.remove
  {
    hide NormalizeModelNames, LocalModels, Added, NextModels, ApplyChoice, Normal;
    var models := ApplyChoice(d, p.add, [], p.remove, t1).channel.models;
    AppliedListReadsBackIff(d, p.add, [], p.remove, t1);
    LocalModelsAreCommaFree(models);
    SameNormalList(Added(d, p.add), p.add);
    var after := LocalModels(models);
    CommaFreeMembers(p.add);
    CommaFreeMembers(after);
    if forall x :: x in after <==> (x in LocalModels(d.models) || x in p.add) && x !in p.remove {
      forall x | x in p.add
        ensures ',' !in x
      {
        assert x in after;
      }
    }
  }

  /** Applying everything pending: what is added, removed, stored and ignored. */
  lemma ApplyAllMembers(d: Channel, p: Pending, t1: int)
    requires d.detected == p.add && d.removed == p.remove
    requires NormalizeModelNames(p.add) == p.add && NormalizeModelNames(p.remove) == p.remove
    requires NormalizeModelNames([]) == []
    requires forall x :: x in p.remove ==> x !in p.add
    ensures forall x :: x in Added(d, p.add) <==> x in p.add
    ensures forall x :: x in NextModels(d, p.add, p.remove) <==>
              (x in LocalModels(d.models) || x in p.add) && x !in p.remove
    ensures var e := ApplyChoice(d, p.add, [], p.remove, t1).channel;
            Normal(e.ignored) && forall x :: x in e.ignored <==> x in NormalizeModelNames(d.ignored) && x !in p.add
  {
    hide NormalizeModelNames, LocalModels, Added, Removed, NextModels, ApplyChoice, Normal;
    ChoiceMeaning(d, p.add, [], p.remove, t1);
    assert ApplyChoice(d, p.add, [], p.remove, t1).added == Added(d, p.add) by { AddedField(d, p, t1); }
  }

  lemma AddedField(d: Channel, p: Pending, t1: int)
    ensures ApplyChoice(d, p.add, [], p.remove, t1).added == Added(d, p.add)
  {
  }

  lemma SameNormalList(a: seq<string>, b: seq<string>)
    requires forall x :: x in a <==> x in b
    ensures CommaFree(a) <==> CommaFree(b)
  {
    CommaFreeMembers(a);
    CommaFreeMembers(b);
  }

  /** FIXED POINT, exactly. One detect-and-apply-everything leaves nothing pending against the same
      upstream if and only if no detected addition holds a comma, and striking the additions from the
      ignore list does not uncover a name that only they, read as patterns, were holding back. */
  lemma SyncReachesFixedPointIff(c: Channel, u: Upstream, t0: int, t1: int)
    ensures PendingChanges(ViewOf(SyncOnce(c, u, t0, t1), u)) == Pending([], [])
       <==> CommaFree(PendingChanges(ViewOf(c, u)).add) && StaysIgnored(ViewOf(c, u))
  {
    hide PendingChanges, SyncOnce, ViewOf, StaysIgnored, CommaFree;
    SyncOnceGivesSyncedView(c, u, t0, t1);
    var v, w := ViewOf(c, u), ViewOf(SyncOnce(c, u, t0, t1), u);
    if PendingChanges(w) == Pending([], []) {
      SyncedImpliesConditions(v, w);
    } else if CommaFree(PendingChanges(v).add) && StaysIgnored(v) {
      ConditionsImplySynced(v, w);
    }
  }

  /** Such a sync: an upstream name with a comma is stored as two names, so it is pending again. */
  lemma CommaNameStaysPending(c: Channel, u: Upstream, t0: int, t1: int)
    requires c.models == "" && c.ignored == [] && u.names == ["a,b"] && u.mapping == map[]
    ensures PendingChanges(ViewOf(SyncOnce(c, u, t0, t1), u)) != Pending([], [])
  {
    hide PendingChanges, NormalizeModelNames, SyncOnce, StaysIgnored;
    var v := ViewOf(c, u);
    SyncReachesFixedPointIff(c, u, t0, t1);
    ViewIsNormal(c, u);
    PendingMeaning(v);
    OneName("a,b");
    NormalizedMembers([], "a,b");
    NormalIsFixed([]);
    assert v.local == [] && v.ignored == [];
    assert "a,b" in PendingChanges(v).add;
    CommaFreeMembers(PendingChanges(v).add);
  }

  /** Another: a name that is itself a pattern of the ignore list is added and struck from that list,
      and the name it held back becomes pending. */
  lemma StruckPatternUncovers(c: Channel, u: Upstream, t0: int, t1: int)
    requires c.models == "" && c.ignored == ["regex:^x"] && u.names == ["regex:^x", "xa"] && u.mapping == map[]
    requires u.matches("^x", "xa") && !u.matches("^x", "regex:^x")
    ensures PendingChanges(ViewOf(SyncOnce(c, u, t0, t1), u)) != Pending([], [])
  {
    hide PendingChanges, NormalizeModelNames, SyncOnce, Filter, EntryMatches;
    var v, pattern, held := ViewOf(c, u), "regex:^x", "xa";
    var p := PendingChanges(v);
    SyncReachesFixedPointIff(c, u, t0, t1);
    ViewIsNormal(c, u);
    PendingMeaning(v);
    NormalIsFixed([]);
    PatternLists();
    PatternMatches(u.matches);
    assert v.local == [] && v.ignored == [pattern] && v.upstream == [pattern, held];
    assert !Ignored(v.matches, v.ignored, pattern);
    assert pattern in p.add;
    assert pattern in v.ignored && Ignored(v.matches, v.ignored, held);
    SubtractNormal(v.ignored, p.add);
    assert !Ignored(v.matches, Subtract(v.ignored, p.add), held);
    assert held in v.upstream && Uncovered(v, held);
  }

  lemma PatternLists()
    ensures NormalizeModelNames(["regex:^x"]) == ["regex:^x"]
    ensures NormalizeModelNames(["regex:^x", "xa"]) == ["regex:^x", "xa"]
  {
    hide NormalizeModelNames, TrimSpace;
    PatternNames();
    NormalIsFixed(["regex:^x"]);
    NormalIsFixed(["regex:^x", "xa"]);
  }

  lemma PatternNames()
    ensures TrimSpace("regex:^x") == "regex:^x" && TrimSpace("xa") == "xa" && TrimSpace("^x") == "^x"
  {
    hide TrimSpace;
    TrimSpaceFixes("regex:^x");
    TrimSpaceFixes("xa");
    TrimSpaceFixes("^x");
  }

  lemma PatternMatches(matches: (string, string) -> bool)
    ensures forall name :: EntryMatches(matches, "regex:^x", name) == matches("^x", name)
  {
    hide TrimSpace;
    PatternNames();
    assert "regex:^x"[..6] == REGEX_PREFIX && "regex:^x"[6..] == "^x";
  }

  lemma OneName(name: string)
    requires name == "a,b"
    ensures name in NormalizeModelNames([name]) && ',' in name
  {
    hide NormalizeModelNames;
    NormalizedMembers([name], name);
    assert name[1] == ',';
    TrimSpaceFixes(name);
    assert Trims([name], name) by { assert TrimSpace([name][0]) == name; }
  }

  /** In particular: upstream names without commas, none written like a pattern. */
  lemma OrdinaryNamesReachFixedPoint(c: Channel, u: Upstream, t0: int, t1: int)
    requires forall x :: x in NormalizeModelNames(u.names) ==> ',' !in x && !IsPattern(x)
    ensures PendingChanges(ViewOf(SyncOnce(c, u, t0, t1), u)) == Pending([], [])
  {
    hide PendingChanges, NormalizeModelNames, LocalModels, Normal, SyncOnce, Filter, IsPattern;
    SyncReachesFixedPointIff(c, u, t0, t1);
    var v := ViewOf(c, u);
    ViewIsNormal(c, u);
    PendingMeaning(v);
    var p := PendingChanges(v);
    SubtractNormal(v.ignored, p.add);
    CommaFreeMembers(p.add);
    forall x | x in v.upstream && Uncovered(v, x) && Ignored(v.matches, v.ignored, x)
      ensures Ignored(v.matches, Subtract(v.ignored, p.add), x)
    {
      var entry :| entry in v.ignored && EntryMatches(v.matches, entry, x);
      assert entry !in p.add;
      assert entry in Subtract(v.ignored, p.add);
    }
  }

  /** A redirect source is never removed, whatever the upstream lists. */
  lemma RedirectSourcesAreKept(c: Channel, u: Upstream, t0: int, t1: int, source: string)
    requires source in LocalModels(c.models) && source in u.mapping.Keys
    ensures source in LocalModels(SyncOnce(c, u, t0, t1).models)
  {
    hide NormalizeModelNames, LocalModels, Normal, NormalView, CommaFree, PendingChanges;
    hide ApplyChoice, SyncOnce, Check, NextModels;
    var d, p := Detection(c, u, t0), PendingChanges(ViewOf(c, u));
    ViewIsNormal(c, u);
    PendingBasics(ViewOf(c, u));
    NormalIsFixed(p.add);
    NormalIsFixed(p.remove);
    SyncOnceUnfolds(c, u, t0, t1);
    ApplyAllMembers(d, p, t1);
    CommaFreeMembers(LocalModels(c.models));
    AppliedKeepsName(d, p.add, [], p.remove, t1, source);
  }

  // ----- Auto-sync ---------------------------------------------------------------------

  /** Auto-sync adds exactly the pending additions, counts them right, and leaves no addition pending
      if and only if none of them holds a comma. */
  lemma AutoSyncAddsEverythingPending(c: Channel, u: Upstream, minInterval: int, now: int)
    requires c.autoSync && PendingChanges(ViewOf(c, u)).add != []
    ensures var r := Check(c, Some(u), true, true, minInterval, now);
            var p := PendingChanges(ViewOf(c, u));
            && r.changed && r.autoAdded == |p.add|
            && (PendingChanges(ViewOf(r.channel, u)).add == [] <==> CommaFree(p.add))
            && (CommaFree(p.add) ==> LocalModels(r.channel.models) == LocalModels(c.models) + p.add)
  {
    hide NormalizeModelNames, LocalModels, Normal, Ignored, PendingChanges, Filter, Join;
    var v := ViewOf(c, u);
    ViewIsNormal(c, u);
    PendingMeaning(v);
    var p := PendingChanges(v);
    var l := LocalModels(c.models);
    var r := Check(c, Some(u), true, true, minInterval, now);
    assert Merge(l, p.add) == l + p.add by { FilterSelects(p.add, NotIn(l)); }
    MergeNormal(l, p.add);
    StoredListReadsBackIff(l + p.add);
    var w := ViewOf(r.channel, u);
    ViewIsNormal(r.channel, u);
    PendingMeaning(w);
    EmptyIff(PendingChanges(w).add);
    assert r.channel.models == Join(l + p.add, ',');
    CommaFreeMembers(p.add);
    CommaFreeMembers(l);
    CommaFreeMembers(l + p.add);
    CommaFreeMembers(w.local);
    if !CommaFree(p.add) {
      var x :| x in p.add && ',' in x;
      assert x in PendingChanges(w).add;
    }
  }

  // ----- What a check records -------------------------------------------------------------

  /** A check does nothing when the last one was too recent and it is not forced; a failed fetch only
      stamps the time; otherwise the removals found are recorded, and the additions found are recorded
      or, under auto-sync, applied. Only auto-sync touches the models. */
  lemma CheckRecords(c: Channel, fetched: Option<Upstream>, force: bool, auto: bool, minInterval: int, now: int)
    ensures var r := Check(c, fetched, force, auto, minInterval, now);
            if !force && 0 < c.lastCheck && now < c.lastCheck + minInterval then r == CheckResult(c, false, 0, false)
            else if fetched.None? then r == CheckResult(c.(lastCheck := now), false, 0, true)
            else
              var p := PendingChanges(ViewOf(c, fetched.value));
              && !r.failed && r.channel.lastCheck == now && r.channel.autoSync == c.autoSync
              && r.channel.ignored == c.ignored && r.channel.removed == p.remove
              && (if auto && c.autoSync && p.add != [] then r.channel.detected == []
                  else r.channel.detected == p.add && r.channel.models == c.models && !r.changed && r.autoAdded == 0)
  {
    hide PendingChanges, ViewOf, Merge, Join;
  }

  // ----- Every run -----------------------------------------------------------------------

  /** What a run may do to a channel: a check against some upstream names, or an operator's choice. */
  datatype Action =
    | Checked(fetched: Option<seq<string>>, force: bool, allowAutoApply: bool, minInterval: int, now: int)
    | Chosen(add: seq<string>, ignore: seq<string>, remove: seq<string>, now: int)

  function Act(c: Channel, a: Action, mapping: map<string, string>, matches: (string, string) -> bool): Channel {
    match a
    case Checked(fetched, force, auto, minInterval, now) =>
      var upstream := if fetched.None? then None else Some(Upstream(fetched.value, mapping, matches));
      Check(c, upstream, force, auto, minInterval, now).channel
    case Chosen(add, ignore, remove, now) => ApplyChoice(c, add, ignore, remove, now).channel
  }

  function Run(c: Channel, actions: seq<Action>, mapping: map<string, string>,
               matches: (string, string) -> bool): Channel
  {
    if actions == [] then c
    else Act(Run(c, actions[..|actions| - 1], mapping, matches), actions[|actions| - 1], mapping, matches)
  }

  /** The pending lists make sense for the list they are about: additions are not local yet, removals
      still are, no redirect source is up for removal, and what is pending can be stored. */
  predicate Coherent(c: Channel, mapping: map<string, string>) {
    && Normal(c.detected) && Normal(c.removed)
    && (forall x :: x in c.detected ==> x !in LocalModels(c.models) && ',' !in x)
    && (forall x :: x in c.removed ==> x in LocalModels(c.models) && x !in mapping.Keys)
  }

  /** The upstream never lists a name with a comma. */
  ghost predicate CommaFreeUpstreams(a: Action) {
    a.Checked? && a.fetched.Some? ==> CommaFree(NormalizeModelNames(a.fetched.value))
  }

  /** The check returns without looking, because the last one was too recent. */
  predicate Skips(c: Channel, force: bool, minInterval: int, now: int) {
    !force && c.lastCheck > 0 && now - c.lastCheck < minInterval
  }

  /** A check keeps a channel coherent if and only if it is skipped, applies the additions at once, or
      finds no addition with a comma. */
  lemma CheckKeepsCoherenceIff(c: Channel, u: Upstream, force: bool, auto: bool, minInterval: int, now: int)
    requires Coherent(c, u.mapping)
    ensures Coherent(Check(c, Some(u), force, auto, minInterval, now).channel, u.mapping)
       <==> Skips(c, force, minInterval, now) || (auto && c.autoSync) || CommaFree(PendingChanges(ViewOf(c, u)).add)
  {
    hide NormalizeModelNames, LocalModels, Normal, NormalView, CommaFree, PendingChanges, Join, Merge;
    var v := ViewOf(c, u);
    ViewIsNormal(c, u);
    PendingBasics(v);
    var p, l := PendingChanges(v), LocalModels(c.models);
    CommaFreeMembers(p.add);
    CommaFreeMembers(l);
    EmptyIsNormal();
    if auto && c.autoSync && p.add == [] { assert CommaFree(p.add); }
    LocalModelsAreCommaFree(c.models);
    MergeNormal(l, p.add);
    forall x | x in l
      ensures x in LocalModels(Join(Merge(l, p.add), ','))
    {
      CommaFreeNameIsStored(Merge(l, p.add), x);
    }
  }

  lemma EmptyIsNormal()
    ensures Normal([])
  {
  }

  lemma ChoiceKeepsCoherence(c: Channel, mapping: map<string, string>, add: seq<string>, ignore: seq<string>,
                             remove: seq<string>, now: int)
    requires Coherent(c, mapping)
    ensures Coherent(ApplyChoice(c, add, ignore, remove, now).channel, mapping)
  {
    hide NormalizeModelNames, LocalModels, Normal, Filter, Join, CommaFree;
    ChoiceMeaning(c, add, ignore, remove, now);
    AppliedListReadsBackIff(c, add, ignore, remove, now);
    NormalIsFixed(c.detected);
    NormalIsFixed(c.removed);
    CommaFreeMembers(Added(c, add));
  }

  lemma PendingIsCommaFree(c: Channel, u: Upstream)
    requires CommaFree(NormalizeModelNames(u.names))
    ensures CommaFree(PendingChanges(ViewOf(c, u)).add)
  {
    hide NormalizeModelNames, LocalModels, Normal, NormalView, CommaFree, PendingChanges;
    ViewIsNormal(c, u);
    PendingBasics(ViewOf(c, u));
    CommaFreeMembers(NormalizeModelNames(u.names));
    CommaFreeMembers(PendingChanges(ViewOf(c, u)).add);
  }

  /** SAFETY OVER RUNS. Along every run of checks and choices a coherent channel stays coherent. */
  lemma {:induction false} RunsKeepCoherence(c: Channel, actions: seq<Action>, mapping: map<string, string>,
                                             matches: (string, string) -> bool)
    requires Coherent(c, mapping)
    requires forall i :: 0 <= i < |actions| ==> CommaFreeUpstreams(actions[i])
    ensures Coherent(Run(c, actions, mapping, matches), mapping)
  {
    if actions != [] {
      var init, last := actions[..|actions| - 1], actions[|actions| - 1];
      RunsKeepCoherence(c, init, mapping, matches);
      var before := Run(c, init, mapping, matches);
      match last {
        case Checked(fetched, force, auto, minInterval, now) =>
          if fetched.Some? {
            var u := Upstream(fetched.value, mapping, matches);
            CheckKeepsCoherenceIff(before, u, force, auto, minInterval, now);
            PendingIsCommaFree(before, u);
          }
        case Chosen(add, ignore, remove, now) =>
          ChoiceKeepsCoherence(before, mapping, add, ignore, remove, now);
      }
    }
  }
}
