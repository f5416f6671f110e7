/** The change-only player tracker of src/filters.rs. */
module Filters {
  import opened Sequences
  import opened Wrappers
  import Text

  /** A player of an UpdateState event: `kept` are the values a snapshot takes over, `rest` all others. */
  datatype Player<K, R> = Player(name: Option<string>, kept: K, rest: R)

  /** `moment` is the match, frame and time that a snapshot takes over from the event. */
  datatype Event<M, K, R> = UpdateState(moment: M, players: seq<Player<K, R>>) | Other

  datatype Snapshot<M, K> = Snapshot(moment: M, name: string, kept: K)

  // ---- One event ----

  predicate HasName<K, R>(p: Player<K, R>, name: string) {
    p.name.Some? && Text.EqIgnoreCase(p.name.value, name)
  }

  /** What the event shows of the player: the first who has the name. */
  function Shown<M, K, R>(e: Event<M, K, R>, name: string): Option<Snapshot<M, K>> {
    if e.Other? then None else ShownAmong(e.moment, e.players, name)
  }

  function ShownAmong<M, K, R>(moment: M, players: seq<Player<K, R>>, name: string): Option<Snapshot<M, K>> {
    if players == [] then None
    else if HasName(players[0], name) then Some(Snapshot(moment, players[0].name.value, players[0].kept))
    else ShownAmong(moment, players[1..], name)
  }

  // ---- Runs of events ----

  /** All snapshots of the player, event by event. */
  function Seen<M, K, R>(events: seq<Event<M, K, R>>, name: string): seq<Snapshot<M, K>> {
    if events == [] then []
    else SeenIn(events[0], name) + Seen(events[1..], name)
  }

  function SeenIn<M, K, R>(e: Event<M, K, R>, name: string): seq<Snapshot<M, K>> {
    if Shown(e, name).Some? then [Shown(e, name).value] else []
  }

  /** Without the elements that equal the one before them. */
  function Collapsed<S(==)>(s: seq<S>): seq<S> {
    if |s| < 2 then s
    else if s[|s| - 1] == s[|s| - 2] then Collapsed(s[..|s| - 1])
    else Collapsed(s[..|s| - 1]) + [s[|s| - 1]]
  }

  function Last<S>(s: seq<S>): Option<S> { if s == [] then None else Some(s[|s| - 1]) }

  lemma {:induction false} SeenPush<M, K, R>(events: seq<Event<M, K, R>>, e: Event<M, K, R>, name: string)
    ensures Seen(events + [e], name) == Seen(events, name) + SeenIn(e, name)
  {
    if events == [] {
      assert events + [e] == [e];
    } else {
      assert (events + [e])[1..] == events[1..] + [e];
      SeenPush(events[1..], e, name);
      AppendAssociates(SeenIn(events[0], name), Seen(events[1..], name), SeenIn(e, name));
    }
  }

  /** Collapsing keeps the first and the last element, and leaves no two equal ones next to each other. */
  lemma {:induction false} CollapsedIs<S>(s: seq<S>)
    ensures Last(Collapsed(s)) == Last(s) && (s != [] ==> Collapsed(s) != [] && Collapsed(s)[0] == s[0])
    ensures forall i | 0 < i < |Collapsed(s)| :: Collapsed(s)[i] != Collapsed(s)[i - 1]
    ensures forall x :: x in Collapsed(s) <==> x in s
  {
    if |s| >= 2 {
      var front := s[..|s| - 1];
      CollapsedIs(front);
      assert s == front + [s[|s| - 1]];
    }
  }

  lemma CollapsedPush<S>(s: seq<S>, x: S)
    ensures Collapsed(s + [x]) == if Last(s) == Some(x) then Collapsed(s) else Collapsed(s) + [x]
  {
    assert (s + [x])[..|s|] == s;
  }

  /** The player an event shows: the first one whose name is the given one in capitals, with its own name and values. */
  lemma {:induction false} ShownIsFirst<M, K, R>(moment: M, players: seq<Player<K, R>>, name: string)
    ensures ShownAmong(moment, players, name).None? <==>
            forall p <- players :: p.name.None? || Text.Capitals(p.name.value) != Text.Capitals(name)
    ensures forall i | 0 <= i < |players| && players[i].name.Some? && Text.Capitals(players[i].name.value) == Text.Capitals(name) &&
                       (forall k | 0 <= k < i :: players[k].name.None? || Text.Capitals(players[k].name.value) != Text.Capitals(name)) ::
              ShownAmong(moment, players, name) == Some(Snapshot(moment, players[i].name.value, players[i].kept))
    decreases |players|
  {
    if players != [] {
      if players[0].name.Some? { Text.EqInCapitals(players[0].name.value, name); }
      var others := players[1..];
      ShownIsFirst(moment, others, name);
      assert forall i | 0 < i < |players| :: players[i] == others[i - 1];
      assert forall p <- players :: p == players[0] || p in others;
    }
  }

  /** So trackers for names that differ in case only see the same. */
  lemma {:induction false} CaseMakesNoDifference<M, K, R>(events: seq<Event<M, K, R>>, name: string, other: string)
    requires Text.Capitals(name) == Text.Capitals(other)
    ensures Seen(events, name) == Seen(events, other)
  {
    if events != [] {
      CaseMakesNoDifference(events[1..], name, other);
      if events[0].UpdateState? { SameShown(events[0].moment, events[0].players, name, other); }
    }
  }

  lemma {:induction false} SameShown<M, K, R>(moment: M, players: seq<Player<K, R>>, name: string, other: string)
    requires Text.Capitals(name) == Text.Capitals(other)
    ensures ShownAmong(moment, players, name) == ShownAmong(moment, players, other)
    decreases |players|
  {
    if players != [] {
      SameShown(moment, players[1..], name, other);
      if players[0].name.Some? {
        Text.EqInCapitals(players[0].name.value, name);
        Text.EqInCapitals(players[0].name.value, other);
      }
    }
  }

  // ---- The tracker ----

  class PlayerTracker<M(==), K(==), R> {
    const playerName: string
    var latest: Option<Snapshot<M, K>>

    /** History: the events taken in, and the snapshots returned. */
    ghost var events: seq<Event<M, K, R>>
    ghost var returned: seq<Snapshot<M, K>>

    /** What has been returned are the player's snapshots with equal neighbours collapsed; the latest is the
        last of them. */
    ghost predicate Valid()
      reads this
    {
      latest == Last(Seen(events, playerName)) && returned == Collapsed(Seen(events, playerName))
    }

    /** by_name */
    constructor (name: string)
      ensures Valid() && playerName == name && latest == None && events == [] && returned == []
    {
      playerName := name;
      latest := None;
      events := [];
      returned := [];
    }

    method Find(players: seq<Player<K, R>>) returns (found: Option<Player<K, R>>)
      ensures found.Some? ==> found.value in players && HasName(found.value, playerName)
      ensures found.None? ==> forall p <- players :: !HasName(p, playerName)
      ensures forall moment: M :: ShownAmong(moment, players, playerName) ==
                if found.None? then None else Some(Snapshot(moment, found.value.name.value, found.value.kept))
    {
      for i := 0 to |players|
        invariant forall k | 0 <= k < i :: !HasName(players[k], playerName)
        invariant forall moment: M :: ShownAmong(moment, players, playerName) == ShownAmong(moment, players[i..], playerName)
      {
        assert players[i..][1..] == players[i + 1..];
        if players[i].name.Some? && Text.EqIgnoreCase(players[i].name.value, playerName) { return Some(players[i]); }
      }
      return None;
    }

    /** update_from_event: an event without the player changes nothing and returns nothing. */
    method UpdateFromEvent(e: Event<M, K, R>) returns (r: Option<Snapshot<M, K>>)
      requires Valid()
      modifies this
      ensures Valid() && events == old(events) + [e]
      ensures returned == if r.Some? then old(returned) + [r.value] else old(returned)
      ensures var shown := Shown(e, playerName);
              latest == (if shown.Some? then shown else old(latest)) &&
              r == if shown != old(latest) then shown else None
    {
      TakesIn(events, e, playerName);
      events := events + [e];
      if e.Other? { return None; }
      var player := Find(e.players);
      if player.None? { return None; }
      var snapshot := Snapshot(e.moment, player.value.name.value, player.value.kept);
      var changed := latest != Some(snapshot);
      latest := Some(snapshot);
      if !changed { return None; }
      returned := returned + [snapshot];
      return Some(snapshot);
    }
  }

  lemma TakesIn<M, K, R>(events: seq<Event<M, K, R>>, e: Event<M, K, R>, name: string)
    ensures var shown, seen, more := Shown(e, name), Seen(events, name), Seen(events + [e], name);
            Last(more) == (if shown.Some? then shown else Last(seen)) &&
            Collapsed(more) == if shown.None? || shown == Last(seen) then Collapsed(seen) else Collapsed(seen) + [shown.value]
  {
    var seen := Seen(events, name);
    SeenPush(events, e, name);
    assert seen + [] == seen;
    if Shown(e, name).Some? { CollapsedPush(seen, Shown(e, name).value); }
  }

  /** A tracker over a run of events returns the player's snapshots with equal neighbours collapsed. */
  method Track<M(==), K(==), R>(events: seq<Event<M, K, R>>, name: string) returns (changes: seq<Snapshot<M, K>>, latest: Option<Snapshot<M, K>>)
    ensures changes == Collapsed(Seen(events, name))
    ensures latest == Last(changes) == Last(Seen(events, name))
  {
    var tracker := new PlayerTracker<M, K, R>(name);
    changes := [];
    for i := 0 to |events|
      invariant tracker.Valid() && tracker.playerName == name && fresh(tracker)
      invariant tracker.events == events[..i] && tracker.returned == changes
    {
      var r := tracker.UpdateFromEvent(events[i]);
      assert events[..i] + [events[i]] == events[..i + 1];
      if r.Some? { changes := changes + [r.value]; }
    }
    assert events[..|events|] == events;
    CollapsedIs(Seen(events, name));
    latest := tracker.latest;
  }
}
