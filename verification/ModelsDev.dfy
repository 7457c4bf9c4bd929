/** The models.dev conversion of controller/ratio_sync.go: many providers list the same model, and one
    candidate price is selected for it by a fold whose comparison ignores differences below an epsilon. */
module ModelsDev {
  import opened Text
  import opened Pricing

  datatype Cost = Cost(input: Option<real>, output: Option<real>, cacheRead: Option<real>)

  datatype Candidate = Candidate(provider: string, input: real, output: Option<real>, cacheRead: Option<real>)

  /** The decoded response: provider to model name to cost. */
  type Catalog = map<string, map<string, Cost>>

  predicate ValidCost(v: real) {
    v >= 0.0
  }

  function BuildModelsDevCandidate(provider: string, cost: Cost): (c: Option<Candidate>)
    ensures c.Some? ==> c.value.input >= 0.0
  {
    if cost.input.None? || !ValidCost(cost.input.value) then None
    else if cost.output.Some? && !ValidCost(cost.output.value) then None
    else if cost.input.value == 0.0 && cost.output.Some? && cost.output.value > 0.0 then None
    else
      Some(Candidate(provider, cost.input.value, cost.output,
                     if cost.cacheRead.Some? && ValidCost(cost.cacheRead.value) then cost.cacheRead else None))
  }

  /** The output price is the input price times a completion ratio. */
  predicate HasCompletionRatio(ratio: real, input: real, output: real) {
    ratio >= 0.0 && output == ratio * input
  }

  /** The prices can be expressed in the local form: an input price, and a completion ratio for the
      output price if there is one. */
  ghost predicate Convertible(cost: Cost) {
    && cost.input.Some? && cost.input.value >= 0.0
    && (cost.output.Some? ==> exists ratio :: HasCompletionRatio(ratio, cost.input.value, cost.output.value))
  }

  /** A listing makes a candidate exactly when it is convertible, and the candidate carries its prices. */
  lemma CandidateIffConvertible(provider: string, cost: Cost)
    ensures var c := BuildModelsDevCandidate(provider, cost);
            && (c.Some? <==> Convertible(cost))
            && (c.Some? ==>
                  c.value.provider == provider && Some(c.value.input) == cost.input && c.value.output == cost.output)
            && (c.Some? ==> c.value.cacheRead == if cost.cacheRead.Some? && cost.cacheRead.value >= 0.0
                                                 then cost.cacheRead else None)
  {
    if cost.input.Some? && cost.output.Some? {
      var input, output := cost.input.value, cost.output.value;
      if input > 0.0 && output >= 0.0 {
        assert HasCompletionRatio(output / input, input, output);
      } else if input == 0.0 && output == 0.0 {
        assert HasCompletionRatio(0.0, input, output);
      }
      forall ratio | HasCompletionRatio(ratio, input, output) && input >= 0.0
        ensures output >= 0.0 && (input == 0.0 ==> output == 0.0)
      {
        ProductIsNonNegative(ratio, input);
      }
    }
  }

  lemma ProductIsNonNegative(a: real, b: real)
    requires a >= 0.0 && b >= 0.0
    ensures a * b >= 0.0
  {
  }

  /** Go's order on strings. */
  predicate Before(a: string, b: string) {
    if b == "" then false
    else if a == "" then true
    else if a[0] != b[0] then a[0] < b[0]
    else Before(a[1..], b[1..])
  }

  lemma {:induction false} BeforeIsAsymmetric(a: string, b: string)
    requires Before(a, b)
    ensures !Before(b, a)
  {
    if a != "" && a[0] == b[0] { BeforeIsAsymmetric(a[1..], b[1..]); }
  }

  /** The order is total: of two different names one comes first, and a name never before itself. */
  lemma {:induction false} BeforeIsTotal(a: string, b: string)
    ensures a != b <==> Before(a, b) || Before(b, a)
  {
    if a != "" && b != "" {
      assert a == b <==> a[0] == b[0] && a[1..] == b[1..] by { assert a == [a[0]] + a[1..] && b == [b[0]] + b[1..]; }
      BeforeIsTotal(a[1..], b[1..]);
    }
  }

  /** The result of `sort.Strings` on distinct names. */
  predicate Ascending(names: seq<string>) {
    forall i, j :: 0 <= i < j < |names| ==> Before(names[i], names[j])
  }

  predicate ShouldReplaceModelsDevCandidate(current: Candidate, next: Candidate) {
    var currentNonZero, nextNonZero := current.input > 0.0, next.input > 0.0;
    if currentNonZero != nextNonZero then nextNonZero
    else if nextNonZero && !NearlyEqual(next.input, current.input) then next.input < current.input
    else Before(next.provider, current.provider)
  }

  /** What one provider offers for a model, if anything usable. */
  function Offer(catalog: Catalog, provider: string, model: string): (c: Option<Candidate>)
    ensures c.Some? ==> c.value.input >= 0.0 && c.value.provider == provider
  {
    if provider in catalog && model in catalog[provider]
    then BuildModelsDevCandidate(provider, catalog[provider][model])
    else None
  }

  /** The fold for one model over the providers in order. */
  function Selected(catalog: Catalog, providers: seq<string>, model: string): (c: Option<Candidate>)
    ensures c.Some? ==> c.value.input >= 0.0
  {
    if providers == [] then None
    else
      var current := Selected(catalog, providers[..|providers| - 1], model);
      var next := Offer(catalog, providers[|providers| - 1], model);
      if next.Some? && (current.None? || ShouldReplaceModelsDevCandidate(current.value, next.value)) then next
      else current
  }

  datatype Outcome = Candidates(selected: map<string, Candidate>) | EmptyResponse | NoValidEntries

  /** The selection loop, after the providers' names have been sorted. */
  method SelectCandidates(catalog: Catalog, providers: seq<string>) returns (r: Outcome)
    requires Ascending(providers) && forall p :: p in providers <==> p in catalog
    ensures r.EmptyResponse? <==> catalog == map[]
    ensures r.NoValidEntries? <==> catalog != map[] && forall model :: Selected(catalog, providers, model).None?
    ensures r.Candidates? ==> forall model ::
              Selected(catalog, providers, model) == if model in r.selected then Some(r.selected[model]) else None
  {
    if |catalog| == 0 { return EmptyResponse; }
    var selected: map<string, Candidate> := map[];
    for i := 0 to |providers|
      invariant forall model ::
                  Selected(catalog, providers[..i], model) == if model in selected then Some(selected[model]) else None
    {
      assert providers[i] in providers;
      assert providers[..i + 1][..i] == providers[..i];
      selected := SelectFromProvider(catalog, providers, i, selected);
    }
    assert providers[..|providers|] == providers;
    if |selected| == 0 { return NoValidEntries; }
    assert exists model :: model in selected;
    return Candidates(selected);
  }

  /** The inner loop over one provider's models. The source sorts them; each is met once, so their
      order does not matter. */
  method SelectFromProvider(catalog: Catalog, providers: seq<string>, i: nat, before: map<string, Candidate>)
    returns (selected: map<string, Candidate>)
    requires i < |providers| && providers[i] in catalog
    requires forall model ::
               Selected(catalog, providers[..i], model) == if model in before then Some(before[model]) else None
    ensures forall model ::
              Selected(catalog, providers[..i + 1], model) == if model in selected then Some(selected[model]) else None
  {
    var provider := providers[i];
    assert providers[..i + 1][..i] == providers[..i];
    selected := before;
    var todo := catalog[provider].Keys;
    while todo != {}
      invariant todo <= catalog[provider].Keys
      invariant forall model :: model in todo ==>
                  (model in selected <==> model in before) && (model in selected ==> selected[model] == before[model])
      invariant forall model :: model !in todo ==>
                  Selected(catalog, providers[..i + 1], model) ==
                  if model in selected then Some(selected[model]) else None
      decreases todo
    {
      var model :| model in todo;
      var candidate := BuildModelsDevCandidate(provider, catalog[provider][model]);
      todo := todo - {model};
      if candidate.None? {
        continue;
      }
      if model !in selected || ShouldReplaceModelsDevCandidate(selected[model], candidate.value) {
        selected := selected[model := candidate.value];
      }
    }
  }

  // ----- What the fold selects -----------------------------------------------------------

  lemma AscendingPrefix(providers: seq<string>, n: nat)
    requires Ascending(providers) && n <= |providers|
    ensures Ascending(providers[..n])
  {
  }

  /** The selected candidate is one of the offers. */
  lemma {:induction false} SelectedIsOffered(catalog: Catalog, providers: seq<string>, model: string)
    ensures var s := Selected(catalog, providers, model);
            if s.Some? then exists i :: 0 <= i < |providers| && Offer(catalog, providers[i], model) == s
            else forall i :: 0 <= i < |providers| ==> Offer(catalog, providers[i], model).None?
  {
    if providers != [] {
      var n := |providers| - 1;
      SelectedIsOffered(catalog, providers[..n], model);
      var s := Selected(catalog, providers[..n], model);
      if s.Some? {
        var i :| 0 <= i < n && Offer(catalog, providers[..n][i], model) == s;
        assert Offer(catalog, providers[i], model) == s;
      } else {
        forall i | 0 <= i < n
          ensures Offer(catalog, providers[i], model).None?
        {
          assert Offer(catalog, providers[..n][i], model).None?;
        }
      }
      assert Offer(catalog, providers[n], model) == Offer(catalog, providers[|providers| - 1], model);
    }
  }

  /** Over sorted providers the tie-breaker never fires, so the fold moves to a later offer only when
      it turns a zero price into a non-zero one or undercuts by at least the epsilon. */
  lemma ReplacesOnlyToImprove(catalog: Catalog, providers: seq<string>, model: string)
    requires Ascending(providers) && providers != []
    ensures var n := |providers| - 1;
            var current, next := Selected(catalog, providers[..n], model), Offer(catalog, providers[n], model);
            current.Some? && next.Some? ==>
              (ShouldReplaceModelsDevCandidate(current.value, next.value) <==>
                 && next.value.input > 0.0
                 && (current.value.input == 0.0 || next.value.input <= current.value.input - EPSILON))
  {
    var n := |providers| - 1;
    var current, next := Selected(catalog, providers[..n], model), Offer(catalog, providers[n], model);
    if current.Some? && next.Some? {
      SelectedIsOffered(catalog, providers[..n], model);
      var i :| 0 <= i < n && Offer(catalog, providers[..n][i], model) == current;
      assert Before(providers[i], providers[n]);
      BeforeIsAsymmetric(providers[i], providers[n]);
    }
  }

  /** NEAR-MINIMALITY. If some provider offers a non-zero price, the selected price is non-zero and
      less than every non-zero offer plus the epsilon, although the comparison is not transitive. */
  lemma {:induction false} SelectedIsNearlyCheapest(catalog: Catalog, providers: seq<string>, model: string, i: nat)
    requires Ascending(providers) && i < |providers|
    requires Offer(catalog, providers[i], model).Some? && Offer(catalog, providers[i], model).value.input > 0.0
    ensures var s := Selected(catalog, providers, model);
            s.Some? && 0.0 < s.value.input < Offer(catalog, providers[i], model).value.input + EPSILON
  {
    var n := |providers| - 1;
    AscendingPrefix(providers, n);
    ReplacesOnlyToImprove(catalog, providers, model);
    if i < n {
      SelectedIsNearlyCheapest(catalog, providers[..n], model, i);
    }
  }

  /** If every offer is zero, the alphabetically first provider is selected. */
  lemma {:induction false} AllZeroSelectsFirst(catalog: Catalog, providers: seq<string>, model: string, first: nat)
    requires Ascending(providers) && first < |providers|
    requires Offer(catalog, providers[first], model).Some?
    requires forall i :: 0 <= i < first ==> Offer(catalog, providers[i], model).None?
    requires forall i :: 0 <= i < |providers| && Offer(catalog, providers[i], model).Some? ==>
               Offer(catalog, providers[i], model).value.input == 0.0
    ensures Selected(catalog, providers, model) == Offer(catalog, providers[first], model)
  {
    var n := |providers| - 1;
    AscendingPrefix(providers, n);
    ReplacesOnlyToImprove(catalog, providers, model);
    if first < n {
      forall i | 0 <= i < n && Offer(catalog, providers[..n][i], model).Some?
        ensures Offer(catalog, providers[..n][i], model).value.input == 0.0
      {
        assert Offer(catalog, providers[i], model).Some?;
      }
      AllZeroSelectsFirst(catalog, providers[..n], model, first);
    } else {
      SelectedIsOffered(catalog, providers[..n], model);
    }
  }

  // ----- When the cheapest offer really is selected ------------------------------------------

  /** The k-th provider is the first to offer the least non-zero price. */
  ghost predicate FirstCheapest(catalog: Catalog, providers: seq<string>, model: string, k: nat)
    requires k < |providers|
  {
    var c := Offer(catalog, providers[k], model);
    && c.Some? && c.value.input > 0.0
    && (forall i :: 0 <= i < |providers| && Offer(catalog, providers[i], model).Some? ==>
          var o := Offer(catalog, providers[i], model).value.input;
          o > 0.0 ==> if i < k then c.value.input < o else c.value.input <= o)
  }

  /** What the fold has selected leaves the cheapest offer a chance. */
  predicate GivesWay(current: Option<Candidate>, price: real) {
    current.None? || current.value.input == 0.0 || current.value.input >= price + EPSILON
  }

  /** EXACT CONDITION. The documentation promises the cheapest non-zero price. It is selected if and
      only if, when the first provider offering it is reached, the price held so far is absent, zero,
      or higher by at least the epsilon. */
  lemma {:induction false} CheapestIsSelectedIff(catalog: Catalog, providers: seq<string>, model: string, k: nat)
    requires Ascending(providers) && k < |providers| && FirstCheapest(catalog, providers, model, k)
    ensures var s, price := Selected(catalog, providers, model), Offer(catalog, providers[k], model).value.input;
            && s.Some? && price <= s.value.input
            && (s.value.input == price <==> GivesWay(Selected(catalog, providers[..k], model), price))
            && (s.value.input < price + EPSILON)
  {
    hide Offer, Before, ShouldReplaceModelsDevCandidate, Ascending;
    var n := |providers| - 1;
    var price := Offer(catalog, providers[k], model).value.input;
    AscendingPrefix(providers, n);
    ReplacesOnlyToImprove(catalog, providers, model);
    SelectedIsNearlyCheapest(catalog, providers, model, k);
    SelectedIsOffered(catalog, providers, model);
    if k < n {
      FirstCheapestInPrefix(catalog, providers, model, k);
      CheapestIsSelectedIff(catalog, providers[..n], model, k);
      assert providers[..n][..k] == providers[..k];
    } else {
      SelectedIsOffered(catalog, providers[..n], model);
    }
  }

  /** What a caller can see in the catalog: if no earlier provider's price is above the cheapest by less
      than the epsilon, the cheapest is selected. */
  lemma ClearlyCheapestIsSelected(catalog: Catalog, providers: seq<string>, model: string, k: nat)
    requires Ascending(providers) && k < |providers| && FirstCheapest(catalog, providers, model, k)
    requires forall i :: 0 <= i < k && Offer(catalog, providers[i], model).Some? ==>
               var o := Offer(catalog, providers[i], model).value.input;
               o == 0.0 || o >= Offer(catalog, providers[k], model).value.input + EPSILON
    ensures var s := Selected(catalog, providers, model);
            s.Some? && s.value.input == Offer(catalog, providers[k], model).value.input
  {
    CheapestIsSelectedIff(catalog, providers, model, k);
    SelectedIsOffered(catalog, providers[..k], model);
  }

  lemma FirstCheapestInPrefix(catalog: Catalog, providers: seq<string>, model: string, k: nat)
    requires k < |providers| - 1 && FirstCheapest(catalog, providers, model, k)
    ensures FirstCheapest(catalog, providers[..|providers| - 1], model, k)
  {
    var n := |providers| - 1;
    forall i | 0 <= i < n && Offer(catalog, providers[..n][i], model).Some?
      ensures var o := Offer(catalog, providers[..n][i], model).value.input;
              o > 0.0 ==> if i < k then Offer(catalog, providers[k], model).value.input < o
                          else Offer(catalog, providers[k], model).value.input <= o
    {
      assert Offer(catalog, providers[i], model).Some?;
    }
  }

  /** A catalog where the cheapest price is not selected: the first provider is dearer by half the
      epsilon, and the difference goes unseen. */
  lemma CheapestCanBeMissed()
    ensures var cost := (x: real) => Cost(Some(x), None, None);
            var catalog := map["a" := map["m" := cost(1.0 + EPSILON / 2.0)], "b" := map["m" := cost(1.0)]];
            Ascending(["a", "b"]) && Selected(catalog, ["a", "b"], "m") == Offer(catalog, "a", "m")
  {
    var cost := (x: real) => Cost(Some(x), None, None);
    var catalog := map["a" := map["m" := cost(1.0 + EPSILON / 2.0)], "b" := map["m" := cost(1.0)]];
    var providers := ["a", "b"];
    assert Before("a", "b");
    assert providers[..1] == ["a"] && providers[..1][..0] == [];
    assert Selected(catalog, ["a"], "m") == Offer(catalog, "a", "m");
    BeforeIsAsymmetric("a", "b");
  }
}
