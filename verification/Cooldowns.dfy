/** Providers that are out of rotation for a while after a usage-limit failure.

    Models cmd/radioactive_ralph/provider_cooldowns.go and the filter in front of the rotation in
    cmd/radioactive_ralph/binding_resolver.go. The tracker's map is proved to be a function of the history
    of turns; instants are integers, durations seconds. Where the code's comments say that throttling does
    not cool a provider and the code cools it, the code is followed. */
module Cooldowns {
  import opened Sequences
  import opened Wrappers

  datatype Category = Auth | Rejected | Throttled | Other

  datatype Turn = Failed(name: string, category: Category, at: int) | Succeeded(name: string)

  datatype Entry = Entry(expiry: int, consecutiveFailures: nat)

  const HOUR := 3600
  const DURATIONS: seq<int> := [HOUR, 2 * HOUR, 4 * HOUR, 8 * HOUR, 24 * HOUR]

  predicate ShouldCooldown(c: Category) {
    c == Auth || c == Rejected || c == Throttled
  }

  /** The pause after the n-th consecutive failure; the last one is reused. */
  function Pause(n: nat): int
    requires n > 0
  {
    DURATIONS[if n > |DURATIONS| then |DURATIONS| - 1 else n - 1]
  }

  // ---------------------------------------------------------------- what the history says

  predicate Cools(t: Turn, name: string) {
    t.Failed? && t.name == name && ShouldCooldown(t.category)
  }

  /** Cooling failures since the provider last succeeded. */
  function Streak(history: seq<Turn>, name: string): nat {
    if history == [] then 0
    else
      var before, last := history[..|history| - 1], history[|history| - 1];
      if last == Succeeded(name) then 0
      else if Cools(last, name) then Streak(before, name) + 1
      else Streak(before, name)
  }

  /** When the provider last failed in a way that cools it. */
  function LastFailure(history: seq<Turn>, name: string): int
    requires Streak(history, name) > 0
  {
    var before, last := history[..|history| - 1], history[|history| - 1];
    if Cools(last, name) then last.at else LastFailure(before, name)
  }

  function ExpiryOf(history: seq<Turn>, name: string): int
    requires Streak(history, name) > 0
  {
    LastFailure(history, name) + Pause(Streak(history, name))
  }

  predicate Cooling(history: seq<Turn>, name: string, now: int) {
    Streak(history, name) > 0 && now < ExpiryOf(history, name)
  }

  lemma HistoryStep(history: seq<Turn>, t: Turn, name: string)
    ensures Streak(history + [t], name) ==
            if t == Succeeded(name) then 0 else Streak(history, name) + (if Cools(t, name) then 1 else 0)
    ensures Cools(t, name) ==> LastFailure(history + [t], name) == t.at
    ensures !Cools(t, name) && Streak(history + [t], name) > 0 ==>
              LastFailure(history + [t], name) == LastFailure(history, name)
  {
    assert (history + [t])[..|history|] == history;
  }

  /** The provider has not succeeded since turn start, before which it last did. */
  predicate StreakStarts(history: seq<Turn>, name: string, start: nat) {
    && start <= |history| && (start > 0 ==> history[start - 1] == Succeeded(name))
    && forall k :: start <= k < |history| ==> history[k] != Succeeded(name)
  }

  /** The turns from start on in which the provider was turned away: for its credentials, its request or its
      rate, and for nothing else. */
  function Refusals(history: seq<Turn>, name: string, start: nat): set<nat> {
    set k: nat | start <= k < |history| && history[k].Failed? && history[k].name == name && history[k].category != Other
  }

  lemma OneMoreTurn(history: seq<Turn>, name: string, start: nat)
    requires StreakStarts(history, name, start) && start < |history|
    ensures var before, n := history[..|history| - 1], |history| - 1;
            && StreakStarts(before, name, start)
            && n !in Refusals(before, name, start)
            && Refusals(history, name, start) == Refusals(before, name, start) + (if Cools(history[n], name) then {n} else {})
  {}

  /** The streak is the number of those turns. */
  lemma {:induction false} StreakCounts(history: seq<Turn>, name: string, start: nat)
    requires StreakStarts(history, name, start)
    ensures Streak(history, name) == |Refusals(history, name, start)|
  {
    if start < |history| {
      OneMoreTurn(history, name, start);
      StreakCounts(history[..|history| - 1], name, start);
    } else {
      assert Refusals(history, name, start) == {};
    }
  }

  /** The last of them dates it. */
  lemma {:induction false} StreakDated(history: seq<Turn>, name: string, start: nat, last: nat)
    requires StreakStarts(history, name, start) && Streak(history, name) > 0
    requires last in Refusals(history, name, start) && forall k :: k in Refusals(history, name, start) ==> k <= last
    ensures LastFailure(history, name) == history[last].at
  {
    OneMoreTurn(history, name, start);
    if last < |history| - 1 {
      StreakDated(history[..|history| - 1], name, start, last);
    }
  }

  /** How long each further refusal in a row keeps a provider out. */
  function HoursOut(n: nat): int {
    if n == 1 then 1 else if n == 2 then 2 else if n == 3 then 4 else if n == 4 then 8 else 24
  }

  /** A provider that has been refused n times since it last succeeded, the last time in turn last, is
      pausing for one, two, four, eight and from then on twenty-four hours after that turn. */
  lemma PausesExactly(history: seq<Turn>, name: string, start: nat, last: nat, now: int)
    requires StreakStarts(history, name, start)
    requires last in Refusals(history, name, start) && forall k :: k in Refusals(history, name, start) ==> k <= last
    ensures Cooling(history, name, now) <==> now < history[last].at + 3600 * HoursOut(|Refusals(history, name, start)|)
  {
    StreakCounts(history, name, start);
    assert Refusals(history, name, start) != {};
    StreakDated(history, name, start, last);
  }

  /** One that has not been is not pausing. */
  lemma UnrefusedIsAvailable(history: seq<Turn>, name: string, start: nat, now: int)
    requires StreakStarts(history, name, start) && Refusals(history, name, start) == {}
    ensures !Cooling(history, name, now)
  {
    StreakCounts(history, name, start);
  }

  /** The map's entry for one provider is what the history says. */
  predicate Tracks(entries: map<string, Entry>, history: seq<Turn>, name: string) {
    if name in entries then
      Streak(history, name) > 0 && entries[name] == Entry(ExpiryOf(history, name), Streak(history, name))
    else Streak(history, name) == 0
  }

  /** The map after a turn. */
  function AfterTurn(entries: map<string, Entry>, t: Turn): map<string, Entry> {
    match t
    case Succeeded(name) => entries - {name}
    case Failed(name, category, at) =>
      if !ShouldCooldown(category) then entries
      else
        var failures := (if name in entries then entries[name].consecutiveFailures else 0) + 1;
        entries[name := Entry(at + Pause(failures), failures)]
  }

  lemma TurnTracked(entries: map<string, Entry>, history: seq<Turn>, t: Turn, name: string)
    requires Tracks(entries, history, name)
    ensures Tracks(AfterTurn(entries, t), history + [t], name)
  {
    HistoryStep(history, t, name);
  }

  // ---------------------------------------------------------------- the tracker

  class ProviderCooldowns {
    var entries: map<string, Entry>
    ghost var history: seq<Turn>

    /** The map holds exactly the providers in a streak, with its length and its end. */
    ghost predicate Valid()
      reads this
    {
      forall name :: Tracks(entries, history, name)
    }

    constructor ()
      ensures Valid() && history == []
    {
      entries := map[];
      history := [];
    }

    method RecordFailure(name: string, category: Category, now: int)
      requires Valid()
      modifies this
      ensures Valid() && history == old(history) + [Failed(name, category, now)]
    {
      ghost var turn := Failed(name, category, now);
      ghost var next := AfterTurn(entries, turn);
      forall other ensures Tracks(next, history + [turn], other) {
        TurnTracked(entries, history, turn, other);
      }
      history := history + [turn];
      if !ShouldCooldown(category) {
        assert entries == next;
        return;
      }
      var failures := (if name in entries then entries[name].consecutiveFailures else 0) + 1;
      var idx := failures - 1;
      if idx >= |DURATIONS| {
        idx := |DURATIONS| - 1;
      }
      entries := entries[name := Entry(now + DURATIONS[idx], failures)];
      assert entries == next;
    }

    method RecordSuccess(name: string)
      requires Valid()
      modifies this
      ensures Valid() && history == old(history) + [Succeeded(name)]
    {
      ghost var turn := Succeeded(name);
      ghost var next := AfterTurn(entries, turn);
      forall other ensures Tracks(next, history + [turn], other) {
        TurnTracked(entries, history, turn, other);
      }
      history := history + [turn];
      entries := entries - {name};
      assert entries == next;
    }

    /** The map's own view of who is pausing agrees with the history's. */
    lemma CoolingByMap(now: int)
      requires Valid()
      ensures forall name :: Cooling(history, name, now) <==> name in entries && now < entries[name].expiry
      ensures forall name :: name in entries ==> Streak(history, name) > 0 && entries[name].expiry == ExpiryOf(history, name)
    {
      forall name ensures (Cooling(history, name, now) <==> name in entries && now < entries[name].expiry) &&
                          (name in entries ==> Streak(history, name) > 0 && entries[name].expiry == ExpiryOf(history, name))
      {
        assert Tracks(entries, history, name);
      }
    }

    method Active(now: int) returns (active: map<string, int>)
      requires Valid()
      ensures forall name :: name in active <==> Cooling(history, name, now)
      ensures forall name :: name in active ==> Streak(history, name) > 0 && active[name] == ExpiryOf(history, name)
    {
      active := map[];
      CoolingByMap(now);
      var left := entries.Keys;
      while left != {}
        invariant left <= entries.Keys
        invariant forall name :: name in active ==> name in entries && active[name] == entries[name].expiry
        invariant forall name :: name in entries && name !in left ==> (name in active <==> now < entries[name].expiry)
        invariant forall name :: name in active ==> now < entries[name].expiry
        decreases left
      {
        var name :| name in left;
        if now < entries[name].expiry {
          active := active[name := entries[name].expiry];
        }
        left := left - {name};
      }
    }

    /** The tracked provider whose pause ends first, whether or not it is in anybody's pool. */
    method EarliestExpiry(now: int) returns (earliest: Option<string>)
      requires Valid()
      ensures earliest.None? <==> forall name :: !Cooling(history, name, now)
      ensures earliest.Some? ==> EndsFirst(history, now, earliest.value)
    {
      earliest := None;
      CoolingByMap(now);
      var left := entries.Keys;
      while left != {}
        invariant left <= entries.Keys
        invariant earliest.Some? ==> earliest.value in entries && now < entries[earliest.value].expiry
        invariant forall name :: name in entries && name !in left && now < entries[name].expiry ==>
                    earliest.Some? && entries[earliest.value].expiry <= entries[name].expiry
        decreases left
      {
        var name :| name in left;
        if now < entries[name].expiry {
          if earliest.None? || entries[name].expiry < entries[earliest.value].expiry {
            earliest := Some(name);
          }
        }
        left := left - {name};
      }
    }

    /** What the resolver rotates over; the clock is read once for each look at the tracker. */
    method FilterPool(names: seq<string>, now: int, later: int) returns (filtered: seq<string>)
      requires Valid()
      ensures IsFiltered(history, names, now, later, filtered)
    {
      var active := Active(now);
      if |active| == 0 || |names| <= 1 {
        assert |active| == 0 ==> forall name :: name !in active;
        AllAvailable(history, names, now);
        return names;
      }
      filtered := [];
      for i := 0 to |names|
        invariant filtered == Available(history, names[..i], now)
      {
        assert names[..i + 1][..i] == names[..i];
        if names[i] !in active {
          filtered := filtered + [names[i]];
        }
      }
      assert names[..|names|] == names;
      if |filtered| == 0 {
        var earliest := EarliestExpiry(later);
        filtered := if earliest.Some? then [earliest.value] else names;
      }
    }
  }

  // ---------------------------------------------------------------- the filtered pool

  ghost predicate EndsFirst(history: seq<Turn>, now: int, name: string) {
    Cooling(history, name, now) &&
    forall other :: Cooling(history, other, now) ==> ExpiryOf(history, name) <= ExpiryOf(history, other)
  }

  /** The members not cooling, in the pool's order. */
  function Available(history: seq<Turn>, names: seq<string>, now: int): seq<string> {
    if names == [] then []
    else
      var front, last := names[..|names| - 1], names[|names| - 1];
      Available(history, front, now) + (if Cooling(history, last, now) then [] else [last])
  }

  /** A pool of one is left alone. A larger one loses its cooling members; when all of them are, it
      becomes the one provider whose pause ends first, unless every pause has just ended. */
  ghost predicate IsFiltered(history: seq<Turn>, names: seq<string>, now: int, later: int, filtered: seq<string>) {
    var available := Available(history, names, now);
    if |names| <= 1 then filtered == names
    else if available != [] then filtered == available
    else if exists name :: Cooling(history, name, later) then |filtered| == 1 && EndsFirst(history, later, filtered[0])
    else filtered == names
  }

  lemma {:induction false} AvailableMembers(history: seq<Turn>, names: seq<string>, now: int, name: string)
    ensures name in Available(history, names, now) <==> name in names && !Cooling(history, name, now)
  {
    if names != [] {
      AvailableMembers(history, names[..|names| - 1], now, name);
      assert names == names[..|names| - 1] + [names[|names| - 1]];
    }
  }

  lemma {:induction false} AllAvailable(history: seq<Turn>, names: seq<string>, now: int)
    ensures (forall name :: name in names ==> !Cooling(history, name, now)) ==> Available(history, names, now) == names
  {
    if names != [] {
      AllAvailable(history, names[..|names| - 1], now);
      assert names == names[..|names| - 1] + [names[|names| - 1]];
    }
  }

  lemma {:induction false} AllCooling(history: seq<Turn>, names: seq<string>, now: int)
    requires forall name :: name in names ==> Cooling(history, name, now)
    ensures Available(history, names, now) == []
  {
    if names != [] { AllCooling(history, names[..|names| - 1], now); }
  }

  /** A filtered pool is as good a pool: not empty, its names still distinct; and while any member is
      not cooling it holds exactly those members. */
  lemma FilteredPoolIsUsable(history: seq<Turn>, names: seq<string>, now: int, later: int, filtered: seq<string>)
    requires names != [] && IsFiltered(history, names, now, later, filtered)
    requires NoRepeats(names)
    ensures filtered != [] && NoRepeats(filtered)
    ensures |names| > 1 && (exists name :: name in names && !Cooling(history, name, now)) ==>
              forall name :: name in filtered <==> name in names && !Cooling(history, name, now)
  {
    forall name ensures name in Available(history, names, now) <==> name in names && !Cooling(history, name, now) {
      AvailableMembers(history, names, now, name);
    }
    AvailableDistinct(history, names, now);
  }

  lemma {:induction false} AvailableDistinct(history: seq<Turn>, names: seq<string>, now: int)
    requires NoRepeats(names)
    ensures NoRepeats(Available(history, names, now))
  {
    if names != [] {
      var front, last := names[..|names| - 1], names[|names| - 1];
      AvailableDistinct(history, front, now);
      AvailableMembers(history, front, now, last);
    }
  }

  predicate Within(filtered: seq<string>, names: seq<string>) {
    forall name :: name in filtered ==> name in names
  }

  /** Exactly when whatever the filter may choose is in the pool. Its fallback ranges over every tracked
      provider, so once all of a larger pool is pausing, the pauses that end first must be members'. */
  lemma FilterStaysInPoolWhen(history: seq<Turn>, names: seq<string>, now: int, later: int)
    ensures (forall filtered :: IsFiltered(history, names, now, later, filtered) ==> Within(filtered, names)) <==>
              || |names| <= 1
              || Available(history, names, now) != []
              || forall name :: EndsFirst(history, later, name) ==> name in names
  {
    forall name ensures name in Available(history, names, now) ==> name in names {
      AvailableMembers(history, names, now, name);
    }
    if |names| > 1 && Available(history, names, now) == [] {
      forall name | EndsFirst(history, later, name) ensures IsFiltered(history, names, now, later, [name]) {}
      if forall filtered :: IsFiltered(history, names, now, later, filtered) ==> Within(filtered, names) {
        forall name | EndsFirst(history, later, name) ensures name in names {
          assert Within([name], names) && name in [name];
        }
      }
    }
  }

  /** A history for which it does not: a provider outside the pool failed first. */
  lemma FallbackCanLeavePool()
    ensures var history := [Failed("x", Auth, 0), Failed("a", Auth, 5), Failed("b", Auth, 5)];
            forall filtered :: IsFiltered(history, ["a", "b"], 6, 6, filtered) ==> filtered == ["x"]
  {
    var x, a, b := Failed("x", Auth, 0), Failed("a", Auth, 5), Failed("b", Auth, 5);
    var history := [x, a, b];
    assert history == [] + [x] + [a] + [b];
    forall name ensures Streak(history, name) == (if name == "x" || name == "a" || name == "b" then 1 else 0) {
      HistoryStep([], x, name);
      HistoryStep([x], a, name);
      HistoryStep([x] + [a], b, name);
      assert [] + [x] == [x] && [x] + [a] + [b] == history;
    }
    StreaksEnd(x, a, b);
    AllCooling(history, ["a", "b"], 6);
    forall filtered | IsFiltered(history, ["a", "b"], 6, 6, filtered) ensures filtered == ["x"] {
      assert Cooling(history, "x", 6);
    }
  }

  lemma StreaksEnd(x: Turn, a: Turn, b: Turn)
    requires x == Failed("x", Auth, 0) && a == Failed("a", Auth, 5) && b == Failed("b", Auth, 5)
    ensures var history := [x, a, b];
            && Streak(history, "x") == Streak(history, "a") == Streak(history, "b") == 1
            && ExpiryOf(history, "x") == HOUR
            && ExpiryOf(history, "a") == ExpiryOf(history, "b") == 5 + HOUR
  {
    var history := [x, a, b];
    assert [] + [x] == [x] && [x] + [a] == [x, a] && [x, a] + [b] == history;
    HistoryStep([], x, "x");
    HistoryStep([x], a, "x");
    HistoryStep([x, a], b, "x");
    HistoryStep([], x, "a");
    HistoryStep([x], a, "a");
    HistoryStep([x, a], b, "a");
    HistoryStep([], x, "b");
    HistoryStep([x], a, "b");
    HistoryStep([x, a], b, "b");
  }
}
