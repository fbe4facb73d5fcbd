/**
 The flag cache of one process with several threads, while other processes change the rows:
 how old can an answer be?
 */
module FlagCacheStaleness {
  import opened Options
  import opened FeatureFlags

  type Flags = map<string, FlagState>

  /** The rows since a given moment. */
  datatype Version = Version(flags: Flags, since: real)

  /** A thread that has read the rows and not yet stored them in the cache. */
  datatype Loading = Loading(flags: Flags, loadedAt: real)

  /** `versions` is the history of the database, oldest first; `cacheLoadedAt` is when the cached
      value was read from it. */
  datatype System = System(
    now: real,
    versions: seq<Version>,
    threads: map<int, Loading>,
    cacheValue: Flags,
    cacheTs: real,
    cacheLoadedAt: real)

  datatype Action =
    | Advance(dt: real)
    | WriteRows(flags: Flags)
    | Load(thread: int)
    | Fill(thread: int)
    | Hit
    | Invalidate(flag: Option<string>)

  /** A load takes at most `maxLoad`. */
  predicate CanFill(sys: System, thread: int, maxLoad: real) {
    thread in sys.threads && sys.now - sys.threads[thread].loadedAt <= maxLoad
  }

  function Next(sys: System, a: Action, maxLoad: real): System
    requires sys.versions != []
  {
    match a
    case Advance(dt) => if dt < 0.0 then sys else sys.(now := sys.now + dt)
    case WriteRows(flags) => sys.(versions := sys.versions + [Version(flags, sys.now)])
    case Load(t) => sys.(threads := sys.threads[t := Loading(sys.versions[|sys.versions| - 1].flags, sys.now)])
    case Fill(t) =>
      if !CanFill(sys, t, maxLoad) then sys
      else
        var l := sys.threads[t];
        sys.(threads := sys.threads - {t}, cacheValue := l.flags, cacheTs := sys.now, cacheLoadedAt := l.loadedAt)
    case Hit => sys
    case Invalidate(flag) =>
      sys.(cacheValue := if flag.None? then map[] else sys.cacheValue - {flag.value}, cacheTs := 0.0)
  }

  /** What `_read_all` answers at an action, if the action is the end of a `_read_all`. */
  function Answer(sys: System, a: Action, maxLoad: real): Option<Flags> {
    match a
    case Fill(t) => if CanFill(sys, t, maxLoad) then Some(sys.threads[t].flags) else None
    case Hit => if Fresh(sys.cacheValue, sys.cacheTs, sys.now) then Some(sys.cacheValue) else None
    case _ => None
  }

  function Initial(flags: Flags, start: real): System {
    System(start, [Version(flags, start)], map[], map[], 0.0, 0.0)
  }

  function Run(sys: System, actions: seq<Action>, maxLoad: real): (end: System)
    requires sys.versions != []
    ensures end.versions != []
  {
    if actions == [] then sys
    else Next(Run(sys, actions[..|actions| - 1], maxLoad), actions[|actions| - 1], maxLoad)
  }

  /** The rows were exactly `flags` at moment t. */
  predicate WasCurrent(versions: seq<Version>, flags: Flags, t: real) {
    exists i :: 0 <= i < |versions| && versions[i].flags == flags && versions[i].since <= t
                && (i + 1 < |versions| ==> t <= versions[i + 1].since)
  }

  ghost predicate Invariant(sys: System, maxLoad: real) {
    && sys.versions != [] && sys.now >= CACHE_TTL
    && (forall i :: 0 <= i < |sys.versions| ==> sys.versions[i].since <= sys.now)
    && (forall t :: t in sys.threads ==>
          sys.threads[t].loadedAt <= sys.now && WasCurrent(sys.versions, sys.threads[t].flags, sys.threads[t].loadedAt))
    && (sys.cacheTs != 0.0 ==>
          && sys.cacheLoadedAt <= sys.cacheTs <= sys.cacheLoadedAt + maxLoad
          && sys.cacheTs <= sys.now
          && WasCurrent(sys.versions, sys.cacheValue, sys.cacheLoadedAt))
  }

  lemma WriteKeepsHistory(versions: seq<Version>, v: Version, flags: Flags, t: real)
    requires WasCurrent(versions, flags, t) && t <= v.since
    ensures WasCurrent(versions + [v], flags, t)
  {
    var i :| 0 <= i < |versions| && versions[i].flags == flags && versions[i].since <= t
             && (i + 1 < |versions| ==> t <= versions[i + 1].since);
    var longer := versions + [v];
    assert longer[i] == versions[i];
    assert longer[i + 1] == if i + 1 < |versions| then versions[i + 1] else v;
  }

  lemma NextKeepsInvariant(sys: System, a: Action, maxLoad: real)
    requires Invariant(sys, maxLoad) && maxLoad >= 0.0
    ensures Invariant(Next(sys, a, maxLoad), maxLoad)
  {
    match a {
      case WriteRows(flags) =>
        var v := Version(flags, sys.now);
        forall t | t in sys.threads
          ensures WasCurrent(sys.versions + [v], sys.threads[t].flags, sys.threads[t].loadedAt)
        {
          WriteKeepsHistory(sys.versions, v, sys.threads[t].flags, sys.threads[t].loadedAt);
        }
        if sys.cacheTs != 0.0 {
          WriteKeepsHistory(sys.versions, v, sys.cacheValue, sys.cacheLoadedAt);
        }
      case Load(t) =>
        var last := |sys.versions| - 1;
        assert sys.versions[last].since <= sys.now;
      case _ =>
    }
  }

  lemma {:induction false} ReachableInvariant(flags: Flags, start: real, actions: seq<Action>, maxLoad: real)
    requires start >= CACHE_TTL && maxLoad >= 0.0
    ensures Invariant(Run(Initial(flags, start), actions, maxLoad), maxLoad)
  {
    if actions != [] {
      ReachableInvariant(flags, start, actions[..|actions| - 1], maxLoad);
      var sys := Run(Initial(flags, start), actions[..|actions| - 1], maxLoad);
      NextKeepsInvariant(sys, actions[|actions| - 1], maxLoad);
    }
  }

  /** Whatever the threads of this process and the other processes do, every answer was the
      database's state at some moment less than the cache lifetime plus one load ago. */
  lemma AnswersAreRecent(flags: Flags, start: real, actions: seq<Action>, maxLoad: real, a: Action) returns (t: real)
    requires start >= CACHE_TTL && maxLoad >= 0.0
    requires Answer(Run(Initial(flags, start), actions, maxLoad), a, maxLoad).Some?
    ensures var sys := Run(Initial(flags, start), actions, maxLoad);
            && WasCurrent(sys.versions, Answer(sys, a, maxLoad).value, t)
            && t <= sys.now < t + CACHE_TTL + maxLoad
  {
    ReachableInvariant(flags, start, actions, maxLoad);
    var sys := Run(Initial(flags, start), actions, maxLoad);
    t := if a.Hit? then sys.cacheLoadedAt else sys.threads[a.thread].loadedAt;
  }

  /** The load has to be counted: a thread that read the rows before a write may store them after it,
      and they are then served for another cache lifetime. */
  lemma LoadTimeCounts(before: Flags, after: Flags, maxLoad: real) returns (actions: seq<Action>)
    requires before != after && before != map[] && maxLoad >= 0.0
    ensures var sys := Run(Initial(before, CACHE_TTL), actions, maxLoad);
            && Answer(sys, Hit, maxLoad) == Some(before)
            && sys.versions == [Version(before, CACHE_TTL), Version(after, CACHE_TTL)]
            && sys.now == CACHE_TTL + maxLoad + 4.0
  {
    var s0 := Initial(before, CACHE_TTL);
    actions := Then(s0, [], Load(0), maxLoad);
    actions := Then(s0, actions, WriteRows(after), maxLoad);
    actions := Then(s0, actions, Advance(maxLoad), maxLoad);
    actions := Then(s0, actions, Fill(0), maxLoad);
    actions := Then(s0, actions, Advance(4.0), maxLoad);
  }

  lemma Then(sys: System, actions: seq<Action>, a: Action, maxLoad: real) returns (longer: seq<Action>)
    requires sys.versions != []
    ensures Run(sys, longer, maxLoad) == Next(Run(sys, actions, maxLoad), a, maxLoad)
  {
    longer := actions + [a];
    assert longer[..|actions|] == actions;
  }
}
