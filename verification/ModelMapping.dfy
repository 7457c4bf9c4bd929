/** common/model_mapping.go: following model-name redirections to the final upstream name. */
module ModelMapping {
  import opened Text

  /** The raw mapping after the JSON step: blank text, text that does not decode, or a map. */
  datatype RawMapping = Blank | Undecodable | Decoded(mapping: map<string, string>)

  datatype Outcome = Resolved(name: string, mapped: bool) | UnmarshalFailed | ContainsCycle

  /** The trimmed target of a name; a missing key reads as the empty string. */
  function Target(m: map<string, string>, name: string): string {
    TrimSpace(if name in m then m[name] else "")
  }

  predicate Terminal(m: map<string, string>, name: string) {
    Target(m, name) == "" || Target(m, name) == name
  }

  /** k redirections from a name; a terminal name stays where it is. */
  function Follow(m: map<string, string>, name: string, k: nat): string {
    if k == 0 then name
    else
      var before := Follow(m, name, k - 1);
      if Terminal(m, before) then before else Target(m, before)
  }

  ghost predicate ReachesTerminal(m: map<string, string>, name: string) {
    exists k: nat :: Terminal(m, Follow(m, name, k))
  }

  /** What the resolution should be: the terminal name at the end of the chain, if there is one. */
  ghost function Resolution(m: map<string, string>, name: string): Outcome {
    if ReachesTerminal(m, name) then
      var k: nat :| Terminal(m, Follow(m, name, k));
      Resolved(Follow(m, name, k), !Terminal(m, name))
    else ContainsCycle
  }

  /** Past a terminal name the chain does not move. */
  lemma {:induction false} TerminalIsFinal(m: map<string, string>, name: string, j: nat, k: nat)
    requires Terminal(m, Follow(m, name, j)) && j <= k
    ensures Follow(m, name, k) == Follow(m, name, j)
  {
    if j < k { TerminalIsFinal(m, name, j, k - 1); }
  }

  /** A chain has at most one terminal name. */
  lemma TerminalIsUnique(m: map<string, string>, name: string, j: nat, k: nat)
    requires Terminal(m, Follow(m, name, j)) && Terminal(m, Follow(m, name, k))
    ensures Follow(m, name, j) == Follow(m, name, k)
  {
    if j <= k { TerminalIsFinal(m, name, j, k); } else { TerminalIsFinal(m, name, k, j); }
  }

  /** The name redirects to a member of the set. */
  predicate RedirectsInto(m: map<string, string>, name: string, names: set<string>) {
    !Terminal(m, name) && Target(m, name) in names
  }

  ghost predicate Closed(m: map<string, string>, names: set<string>) {
    forall v {:trigger RedirectsInto(m, v, names)} :: v in names ==> RedirectsInto(m, v, names)
  }

  /** A set of non-terminal names closed under redirection is never left. */
  lemma {:induction false} ClosedSetHasNoTerminal(m: map<string, string>, names: set<string>, name: string, k: nat)
    requires name in names
    requires Closed(m, names)
    ensures Follow(m, name, k) in names
  {
    if k > 0 {
      ClosedSetHasNoTerminal(m, names, name, k - 1);
      assert RedirectsInto(m, Follow(m, name, k - 1), names);
    }
  }

  lemma CycleHasNoTerminal(m: map<string, string>, names: set<string>, name: string)
    requires name in names
    requires Closed(m, names)
    ensures !ReachesTerminal(m, name)
  {
    forall k: nat
      ensures !Terminal(m, Follow(m, name, k))
    {
      ClosedSetHasNoTerminal(m, names, name, k);
      assert RedirectsInto(m, Follow(m, name, k), names);
    }
  }

  /** The names a resolution can visit: the start and the trimmed targets. */
  function Reachable(m: map<string, string>, name: string): set<string> {
    {name} + set key | key in m :: TrimSpace(m[key])
  }

  /** The loop of the source. It ends because every turn visits a name not visited before. */
  method ResolveModelMapping(modelName: string, raw: RawMapping) returns (r: Outcome)
    ensures r == match raw
                 case Blank => Resolved(modelName, false)
                 case Undecodable => UnmarshalFailed
                 case Decoded(m) => Resolution(m, modelName)
  {
    if raw.Blank? { return Resolved(modelName, false); }
    if raw.Undecodable? { return UnmarshalFailed; }
    var m := raw.mapping;
    var current := modelName;
    var visited := {current};
    ghost var hops := 0;
    while true
      invariant current == Follow(m, modelName, hops)
      invariant hops > 0 ==> current != modelName
      invariant hops > 0 <==> !Terminal(m, modelName) && modelName != current
      invariant {current, modelName} <= visited <= Reachable(m, modelName)
      invariant forall v {:trigger RedirectsInto(m, v, visited)} ::
                  v in visited && v != current ==> RedirectsInto(m, v, visited)
      decreases Reachable(m, modelName) - visited
    {
      var next := TrimSpace(if current in m then m[current] else "");
      if next == "" || next == current {
        assert Terminal(m, Follow(m, modelName, hops));
        forall k: nat | Terminal(m, Follow(m, modelName, k))
          ensures Follow(m, modelName, k) == current
        {
          TerminalIsUnique(m, modelName, k, hops);
        }
        return Resolved(current, current != modelName);
      }
      assert TrimSpace("") == "";
      ghost var before := visited;
      if next in visited {
        CycleHasNoTerminal(m, visited, modelName);
        return ContainsCycle;
      }
      visited := visited + {next};
      assert forall v {:trigger RedirectsInto(m, v, visited)} :: v in visited && v != next ==>
          RedirectsInto(m, v, visited) by {
        forall v {:trigger RedirectsInto(m, v, visited)} | v in visited && v != next
          ensures RedirectsInto(m, v, visited)
        {
          assert v != current ==> RedirectsInto(m, v, before);
        }
      }
      current := next;
      hops := hops + 1;
    }
  }

  lemma {:induction false} FollowFollow(m: map<string, string>, name: string, j: nat, k: nat)
    ensures Follow(m, Follow(m, name, j), k) == Follow(m, name, j + k)
  {
    if k > 0 { FollowFollow(m, name, j, k - 1); }
  }

  /** All names on one chain agree: they all resolve to the same name, or all report a cycle. */
  lemma ChainAgrees(m: map<string, string>, name: string, j: nat)
    ensures var r, s := Resolution(m, name), Resolution(m, Follow(m, name, j));
            if r.Resolved? then s.Resolved? && s.name == r.name else s == r == ContainsCycle
  {
    hide Terminal, Target;
    var later := Follow(m, name, j);
    if ReachesTerminal(m, name) {
      var k: nat :| Terminal(m, Follow(m, name, k)) && Resolution(m, name).name == Follow(m, name, k);
      FollowFollow(m, name, j, k);
      TerminalIsFinal(m, name, k, j + k);
      assert Terminal(m, Follow(m, later, k));
      var k': nat :| Terminal(m, Follow(m, later, k')) && Resolution(m, later).name == Follow(m, later, k');
      TerminalIsUnique(m, later, k, k');
    } else {
      forall k: nat
        ensures !Terminal(m, Follow(m, later, k))
      {
        FollowFollow(m, name, j, k);
      }
    }
  }

  /** Resolving the result changes nothing. */
  lemma ResolutionIsIdempotent(m: map<string, string>, name: string)
    requires Resolution(m, name).Resolved?
    ensures Resolution(m, Resolution(m, name).name) == Resolved(Resolution(m, name).name, false)
  {
    var k: nat :| Terminal(m, Follow(m, name, k)) && Resolution(m, name).name == Follow(m, name, k);
    var final := Resolution(m, name).name;
    assert Terminal(m, Follow(m, final, 0));
    var k': nat :| Terminal(m, Follow(m, final, k')) && Resolution(m, final).name == Follow(m, final, k');
    TerminalIsFinal(m, final, 0, k');
  }

  /** The resolution, one redirection at a time: a name with no target, or whose trimmed target is empty
      or itself, is final; any other is mapped to what its trimmed target resolves to, if to anything. */
  lemma ResolutionStep(m: map<string, string>, name: string)
    ensures Resolution(m, name) ==
            if name !in m || TrimSpace(m[name]) == "" || TrimSpace(m[name]) == name then Resolved(name, false)
            else
              var next := Resolution(m, TrimSpace(m[name]));
              if next.Resolved? then Resolved(next.name, true) else ContainsCycle
  {
    BlankIsBlank();
    hide TrimSpace;
    assert Follow(m, name, 0) == name;
    if Terminal(m, name) {
      var k: nat :| Terminal(m, Follow(m, name, k)) && Resolution(m, name).name == Follow(m, name, k);
      TerminalIsFinal(m, name, 0, k);
    } else {
      assert Follow(m, name, 1) == Target(m, name);
      ChainAgrees(m, name, 1);
    }
  }

  lemma BlankIsBlank()
    ensures TrimSpace("") == ""
  {
  }

  /** Two names that redirect to each other report a cycle, and so does every name that leads to them. */
  lemma MutualRedirectsAreACycle(m: map<string, string>, a: string, b: string)
    requires a != b && a in m && b in m && a != "" && b != ""
    requires TrimSpace(m[a]) == b && TrimSpace(m[b]) == a
    ensures Resolution(m, a) == Resolution(m, b) == ContainsCycle
  {
    hide TrimSpace;
    assert RedirectsInto(m, a, {a, b}) && RedirectsInto(m, b, {a, b});
    CycleHasNoTerminal(m, {a, b}, a);
    CycleHasNoTerminal(m, {a, b}, b);
  }
}
