/** The bounded session store of the chat engine: least recently used eviction and expiry. */
module SessionStore {
  import opened Basics

  datatype Entry = Entry(session: int, lastAccess: nat)

  type Store = map<string, Entry>

  // ---------- One operation ----------

  /** No other entry was accessed earlier. */
  predicate Oldest(st: Store, id: string) {
    id in st && forall other <- st :: st[id].lastAccess <= st[other].lastAccess
  }

  /** Eviction removes an oldest entry, unless that entry has the empty id. */
  ghost predicate Evicts(st: Store, st': Store) {
    if st == map[] then st' == st
    else exists victim :: Oldest(st, victim) && st' == if victim == "" then st else st - {victim}
  }

  ghost predicate Sets(st: Store, id: string, e: Entry, max: nat, st': Store) {
    if |st| >= max && id !in st then exists room :: Evicts(st, room) && st' == room[id := e]
    else st' == st[id := e]
  }

  /** Entries idle for longer than the time to live go. */
  function Unexpired(st: Store, now: nat, ttl: nat): Store {
    map id <- st | now - st[id].lastAccess <= ttl :: st[id]
  }

  class SessionManager {
    const ttl: nat
    const maxSessions: nat
    var sessions: Store

    constructor (ttlMs: nat, max: nat)
      ensures ttl == ttlMs && maxSessions == max && sessions == map[]
    {
      ttl, maxSessions, sessions := ttlMs, max, map[];
    }

    method Get(id: string, now: nat) returns (session: Option<int>)
      modifies this
      ensures session.Some? <==> id in old(sessions)
      ensures session.Some? ==> session.value == old(sessions)[id].session
                                && sessions == old(sessions)[id := old(sessions)[id].(lastAccess := now)]
      ensures session.None? ==> sessions == old(sessions)
      ensures Step(old(sessions), Event.Get(id, now), maxSessions, ttl, sessions)
    {
      if id in sessions {
        sessions := sessions[id := sessions[id].(lastAccess := now)];
        return Some(sessions[id].session);
      }
      session := None;
    }

    method Set(id: string, session: int, now: nat)
      modifies this
      ensures Sets(old(sessions), id, Entry(session, now), maxSessions, sessions)
      ensures Step(old(sessions), Event.Set(id, session, now), maxSessions, ttl, sessions)
    {
      if |sessions| >= maxSessions && id !in sessions {
        EvictLRU();
      }
      sessions := sessions[id := Entry(session, now)];
    }

    /** One scan for the smallest access time, starting from infinity. */
    method EvictLRU()
      modifies this
      ensures Evicts(old(sessions), sessions)
    {
      var oldestId: Option<string> := None;
      var remaining := sessions.Keys;
      while remaining != {}
        invariant remaining <= sessions.Keys
        invariant oldestId.None? ==> remaining == sessions.Keys
        invariant oldestId.Some? ==> oldestId.value in sessions
        invariant oldestId.Some? ==>
          forall id <- sessions.Keys - remaining :: sessions[oldestId.value].lastAccess <= sessions[id].lastAccess
        decreases |remaining|
      {
        var id :| id in remaining;
        if oldestId.None? || sessions[id].lastAccess < sessions[oldestId.value].lastAccess {
          oldestId := Some(id);
        }
        remaining := remaining - {id};
      }
      assert sessions != map[] ==> oldestId.Some?;
      assert oldestId.Some? ==> Oldest(sessions, oldestId.value);
      if oldestId.Some? && oldestId.value != "" {
        sessions := sessions - {oldestId.value};
      }
    }

    method Cleanup(now: nat)
      modifies this
      ensures sessions == Unexpired(old(sessions), now, ttl)
      ensures Step(old(sessions), Expire(now), maxSessions, ttl, sessions)
    {
      var remaining := sessions.Keys;
      while remaining != {}
        invariant remaining <= old(sessions).Keys
        invariant sessions == map id <- old(sessions)
                                | id in remaining || now - old(sessions)[id].lastAccess <= ttl :: old(sessions)[id]
        decreases |remaining|
      {
        var id :| id in remaining;
        if now - sessions[id].lastAccess > ttl {
          sessions := sessions - {id};
        }
        remaining := remaining - {id};
      }
    }
  }

  // ---------- Whole runs ----------

  /**
    A chat turn that nothing interrupts (get, then set on a miss), a get or a set on its own, as turns
    that overlap interleave them, or a run of the cleanup timer.
   */
  datatype Event =
    | Access(id: string, session: int, now: nat)
    | Get(id: string, now: nat)
    | Set(id: string, session: int, now: nat)
    | Expire(now: nat)

  ghost predicate Step(st: Store, e: Event, max: nat, ttl: nat, st': Store) {
    match e
    case Access(id, session, now) =>
      if id in st then st' == st[id := st[id].(lastAccess := now)]
      else Sets(st, id, Entry(session, now), max, st')
    case Get(id, now) => st' == if id in st then st[id := st[id].(lastAccess := now)] else st
    case Set(id, session, now) => Sets(st, id, Entry(session, now), max, st')
    case Expire(now) => st' == Unexpired(st, now, ttl)
  }

  /**
    A chat turn as the engine takes it when nothing comes between: `created` is the session it opens on
    a miss, ready at `later`.
   */
  method Chat(manager: SessionManager, id: string, created: int, now: nat, later: nat) returns (session: int)
    modifies manager
    ensures var at := if id in old(manager.sessions) then now else later;
      && Step(old(manager.sessions), Access(id, created, at), manager.maxSessions, manager.ttl, manager.sessions)
      && id in manager.sessions && manager.sessions[id] == Entry(session, at)
    ensures session == if id in old(manager.sessions) then old(manager.sessions)[id].session else created
  {
    var known := manager.Get(id, now);
    if known.Some? {
      return known.value;
    }
    manager.Set(id, created, later);
    session := created;
  }

  /** `sts` are the states of a run through the events, from the empty store on. */
  ghost predicate Run(sts: seq<Store>, es: seq<Event>, max: nat, ttl: nat) {
    |sts| == |es| + 1
    && if es == [] then sts[0] == map[]
       else var n := |es| - 1; Run(sts[..n + 1], es[..n], max, ttl) && Step(sts[n], es[n], max, ttl, sts[n + 1])
  }

  lemma RunExtends(sts: seq<Store>, es: seq<Event>, max: nat, ttl: nat, e: Event, st': Store)
    requires Run(sts, es, max, ttl) && Step(sts[|es|], e, max, ttl, st')
    ensures Run(sts + [st'], es + [e], max, ttl)
  {
    assert (sts + [st'])[..|es| + 1] == sts && (es + [e])[..|es|] == es;
  }

  /** No conversation has the empty id. */
  predicate IdsGiven(es: seq<Event>) {
    forall e <- es :: !e.Expire? ==> e.id != ""
  }

  /** The clock moves on with every event. */
  predicate ClockAdvances(es: seq<Event>) {
    forall i, j | 0 <= i < j < |es| :: es[i].now < es[j].now
  }

  /** The conversation the event accesses; a get that misses accesses none. */
  function Touched(st: Store, e: Event): Option<string> {
    match e
    case Access(id, _, _) => Some(id)
    case Get(id, _) => if id in st then Some(id) else None
    case Set(id, _, _) => Some(id)
    case Expire(_) => None
  }

  function Noted(last: map<string, nat>, touched: Option<string>, now: nat): map<string, nat> {
    if touched.Some? then last[touched.value := now] else last
  }

  /** When each id was last accessed, over the whole history; of chat turns, by the events alone. */
  function LastAccess(sts: seq<Store>, es: seq<Event>): map<string, nat>
    requires |sts| == |es| + 1
    decreases |es|
  {
    if es == [] then map[]
    else var n := |es| - 1; Noted(LastAccess(sts[..n + 1], es[..n]), Touched(sts[n], es[n]), es[n].now)
  }

  predicate Distinct(last: map<string, nat>) {
    forall a, b | a in last && b in last && a != b :: last[a] != last[b]
  }

  lemma {:induction false} LastAccessBefore(sts: seq<Store>, es: seq<Event>, now: nat)
    requires |sts| == |es| + 1 && ClockAdvances(es) && IdsGiven(es) && forall e <- es :: e.now < now
    ensures forall id <- LastAccess(sts, es) :: LastAccess(sts, es)[id] < now && id != ""
    ensures Distinct(LastAccess(sts, es))
    decreases |es|
  {
    if es != [] {
      var n := |es| - 1;
      assert es[n] in es;
      LastAccessBefore(sts[..n + 1], es[..n], es[n].now);
    }
  }

  /** The store knows the true access times and holds no id without every more recent one. */
  predicate RecencyClosed(st: Store, last: map<string, nat>) {
    (forall id <- st :: id in last && st[id].lastAccess == last[id])
    && forall a, b | a in st && b in last && last[a] < last[b] :: b in st
  }

  lemma InsertedSize<V>(m: map<string, V>, id: string, v: V)
    ensures |m[id := v]| == if id in m then |m| else |m| + 1
  {
    assert m[id := v].Keys == m.Keys + {id};
  }

  lemma RemovedSize(st: Store, id: string)
    requires id in st
    ensures |st - {id}| == |st| - 1
  {
    assert (st - {id}).Keys == st.Keys - {id};
  }

  lemma InsertKeepsRecency(st: Store, id: string, e: Entry, last: map<string, nat>)
    requires RecencyClosed(st, last) && forall a <- last :: last[a] < e.lastAccess
    ensures RecencyClosed(st[id := e], last[id := e.lastAccess])
  {
  }

  lemma RemoveOldestKeepsRecency(st: Store, victim: string, last: map<string, nat>)
    requires RecencyClosed(st, last) && Oldest(st, victim)
    ensures RecencyClosed(st - {victim}, last)
  {
  }

  lemma SetKeepsRecency(st: Store, id: string, e: Entry, max: nat, st': Store, last: map<string, nat>)
    requires RecencyClosed(st, last) && |st| <= max && 1 <= max && Sets(st, id, e, max, st') && id !in st
    requires "" !in st && forall a <- last :: last[a] < e.lastAccess
    ensures RecencyClosed(st', last[id := e.lastAccess])
    ensures |st'| == if |st| < max then |st| + 1 else max
  {
    if |st| >= max {
      assert st != map[];
      var room :| Evicts(st, room) && st' == room[id := e];
      var victim :| Oldest(st, victim) && room == if victim == "" then st else st - {victim};
      RemoveOldestKeepsRecency(st, victim, last);
      RemovedSize(st, victim);
      InsertKeepsRecency(room, id, e, last);
      InsertedSize(room, id, e);
    } else {
      InsertKeepsRecency(st, id, e, last);
      InsertedSize(st, id, e);
    }
  }

  /** An access to a conversation in the store. */
  lemma HitKeepsRecency(st: Store, id: string, e: Entry, last: map<string, nat>)
    requires RecencyClosed(st, last) && id in st && forall a <- last :: last[a] < e.lastAccess
    ensures RecencyClosed(st[id := e], last[id := e.lastAccess])
    ensures |st[id := e]| == |st| && |last[id := e.lastAccess]| == |last|
  {
    InsertKeepsRecency(st, id, e, last);
    InsertedSize(st, id, e);
    InsertedSize(last, id, e.lastAccess);
  }

  /** A new conversation enters the store. */
  lemma MissKeepsRecency(st: Store, id: string, e: Entry, max: nat, st': Store, last: map<string, nat>)
    requires RecencyClosed(st, last) && |st| <= max && 1 <= max && Sets(st, id, e, max, st') && id !in st
    requires "" !in last && forall a <- last :: last[a] < e.lastAccess
    ensures RecencyClosed(st', last[id := e.lastAccess]) && |st'| <= max
    ensures |st| == Min(max, |last|) ==> |st'| == Min(max, |last[id := e.lastAccess]|)
  {
    SetKeepsRecency(st, id, e, max, st', last);
    if |st| == Min(max, |last|) {
      Fullness(st, last, id, e.lastAccess, max);
    }
  }

  /** A miss below capacity is an id never seen before, if nothing ever expired. */
  lemma Fullness(st: Store, last: map<string, nat>, id: string, now: nat, max: nat)
    requires RecencyClosed(st, last) && id !in st && |st| == Min(max, |last|)
    ensures Min(max, |last[id := now]|) == if |st| < max then |st| + 1 else max
  {
    InsertedSize(last, id, now);
    SubsetSize(st.Keys, last.Keys);
  }

  lemma StepKeepsRecency(st: Store, e: Event, max: nat, ttl: nat, st': Store, last: map<string, nat>)
    requires RecencyClosed(st, last) && |st| <= max && 1 <= max && Step(st, e, max, ttl, st')
    requires "" !in last && forall a <- last :: last[a] < e.now
    ensures RecencyClosed(st', Noted(last, Touched(st, e), e.now)) && |st'| <= max
    ensures !e.Expire? && |st| == Min(max, |last|) ==> |st'| == Min(max, |Noted(last, Touched(st, e), e.now)|)
  {
    match e {
      case Access(id, session, now) =>
        if id in st {
          HitKeepsRecency(st, id, st[id].(lastAccess := now), last);
        } else {
          MissKeepsRecency(st, id, Entry(session, now), max, st', last);
        }
      case Get(id, now) =>
        if id in st {
          HitKeepsRecency(st, id, st[id].(lastAccess := now), last);
        }
      case Set(id, session, now) =>
        if id in st {
          HitKeepsRecency(st, id, Entry(session, now), last);
        } else {
          MissKeepsRecency(st, id, Entry(session, now), max, st', last);
        }
      case Expire(now) =>
        SubsetSize(st'.Keys, st.Keys);
    }
  }

  /** In every run the store is bounded and closed under recency; without expiry it is as full as can be. */
  lemma {:induction false} RunKeepsRecency(sts: seq<Store>, es: seq<Event>, max: nat, ttl: nat)
    requires Run(sts, es, max, ttl) && ClockAdvances(es) && IdsGiven(es) && 1 <= max
    ensures var st, last := sts[|es|], LastAccess(sts, es);
      && RecencyClosed(st, last) && |st| <= max
      && ((forall e <- es :: !e.Expire?) ==> |st| == Min(max, |last|))
    decreases |es|
  {
    if es != [] {
      var n := |es| - 1;
      var before, front := sts[..n + 1], es[..n];
      RunKeepsRecency(before, front, max, ttl);
      assert forall x <- front :: x in es && x.now < es[n].now;
      LastAccessBefore(before, front, es[n].now);
      StepKeepsRecency(sts[n], es[n], max, ttl, sts[n + 1], LastAccess(before, front));
      assert es[n] in es;
    }
  }

  function Newer(last: map<string, nat>, id: string): set<string>
    requires id in last
  {
    set other <- last | last[id] < last[other]
  }

  lemma HeldAreRecent(st: Store, last: map<string, nat>, max: nat, id: string)
    requires RecencyClosed(st, last) && |st| <= max && id in st
    ensures |Newer(last, id)| < max
  {
    assert Newer(last, id) <= st.Keys - {id};
    SubsetSize(Newer(last, id), st.Keys - {id});
  }

  lemma RecentAreHeld(st: Store, last: map<string, nat>, max: nat, id: string)
    requires RecencyClosed(st, last) && Distinct(last) && |st| == Min(max, |last|) && id in last && id !in st
    ensures |Newer(last, id)| >= max
  {
    SubsetSize(st.Keys, last.Keys - {id});
    forall a <- st.Keys ensures a in Newer(last, id) {
      assert last[a] != last[id];
    }
    SubsetSize(st.Keys, Newer(last, id));
  }

  /**
    Without expiry the store holds exactly the `max` most recently accessed conversations, those with
    fewer than `max` others accessed since, however turns overlap.
   */
  lemma HoldsMostRecent(sts: seq<Store>, es: seq<Event>, max: nat, ttl: nat, id: string)
    requires Run(sts, es, max, ttl) && ClockAdvances(es) && IdsGiven(es) && 1 <= max && forall e <- es :: !e.Expire?
    ensures var last := LastAccess(sts, es); id in sts[|es|] <==> id in last && |Newer(last, id)| < max
  {
    RunKeepsRecency(sts, es, max, ttl);
    LastAccessBefore(sts, es, if es == [] then 0 else es[|es| - 1].now + 1);
    if id in sts[|es|] {
      HeldAreRecent(sts[|es|], LastAccess(sts, es), max, id);
    } else if id in LastAccess(sts, es) {
      RecentAreHeld(sts[|es|], LastAccess(sts, es), max, id);
    }
  }

  /**
    The cleanup timer removes exactly the conversations last accessed longer ago than the time to
    live, by the access times of the whole history, and leaves the sessions of the others alone.
   */
  lemma ExpiryIsExact(sts: seq<Store>, es: seq<Event>, max: nat, ttl: nat, id: string)
    requires Run(sts, es, max, ttl) && ClockAdvances(es) && IdsGiven(es) && 1 <= max && es != [] && es[|es| - 1].Expire?
    ensures var n := |es| - 1;
      var last := LastAccess(sts[..n + 1], es[..n]);
      && (id in sts[n] ==> id in last)
      && (id in sts[n + 1] <==> id in sts[n] && es[n].now - last[id] <= ttl)
      && (id in sts[n + 1] ==> sts[n + 1][id] == sts[n][id])
  {
    var n := |es| - 1;
    assert forall e <- es[..n] :: e in es;
    RunKeepsRecency(sts[..n + 1], es[..n], max, ttl);
  }

  // ---------- The bound, whatever the clock does ----------

  lemma SetKeepsBound(st: Store, id: string, e: Entry, max: nat, st': Store)
    requires |st| <= max && 1 <= max && "" !in st && Sets(st, id, e, max, st')
    ensures |st'| <= max && st'.Keys <= st.Keys + {id}
  {
    if |st| >= max && id !in st {
      assert st != map[];
      var room :| Evicts(st, room) && st' == room[id := e];
      var victim :| Oldest(st, victim) && room == if victim == "" then st else st - {victim};
      RemovedSize(st, victim);
      InsertedSize(room, id, e);
    } else {
      InsertedSize(st, id, e);
    }
  }

  lemma StepKeepsBound(st: Store, e: Event, max: nat, ttl: nat, st': Store)
    requires |st| <= max && 1 <= max && "" !in st && Step(st, e, max, ttl, st') && (!e.Expire? ==> e.id != "")
    ensures |st'| <= max && "" !in st'
  {
    match e {
      case Access(id, session, now) =>
        if id in st {
          InsertedSize(st, id, st[id].(lastAccess := now));
        } else {
          SetKeepsBound(st, id, Entry(session, now), max, st');
        }
      case Get(id, now) =>
        if id in st {
          InsertedSize(st, id, st[id].(lastAccess := now));
        }
      case Set(id, session, now) => SetKeepsBound(st, id, Entry(session, now), max, st');
      case Expire(now) => SubsetSize(st'.Keys, st.Keys);
    }
  }

  /**
    With non-empty ids no run ever exceeds the maximum, however gets, sets and expiry interleave and
    even if the clock stands still or goes back.
   */
  lemma {:induction false} SizeIsBounded(sts: seq<Store>, es: seq<Event>, max: nat, ttl: nat)
    requires Run(sts, es, max, ttl) && 1 <= max && IdsGiven(es)
    ensures |sts[|es|]| <= max && "" !in sts[|es|]
    decreases |es|
  {
    if es != [] {
      var n := |es| - 1;
      SizeIsBounded(sts[..n + 1], es[..n], max, ttl);
      assert es[n] in es;
      StepKeepsBound(sts[n], es[n], max, ttl, sts[n + 1]);
    }
  }

  // ---------- The empty id ----------

  /**
    Why ids must not be empty: storing a new conversation in a full store, with one oldest entry,
    keeps the bound exactly when that entry's id is not empty.
   */
  lemma FullStoreEvictsUnlessEmptyId(st: Store, id: string, e: Entry, max: nat, st': Store, oldest: string)
    requires |st| == max && id !in st && Sets(st, id, e, max, st')
    requires Oldest(st, oldest) && forall other <- st :: other != oldest ==> !Oldest(st, other)
    ensures |st'| <= max <==> oldest != ""
  {
    var room :| Evicts(st, room) && st' == room[id := e];
    assert st != map[];
    var victim :| Oldest(st, victim) && room == if victim == "" then st else st - {victim};
    assert victim == oldest;
    assert st'.Keys == room.Keys + {id};
    assert oldest != "" ==> room.Keys == st.Keys - {oldest};
  }

  /** The empty id is in the store and everything else was accessed after it. */
  predicate EmptyIdOldest(st: Store) {
    "" in st && forall id <- st :: id != "" ==> st[""].lastAccess < st[id].lastAccess
  }

  /** Then nothing can be evicted: any store the set may leave is the old one with the new entry. */
  lemma EmptyIdShields(st: Store, id: string, e: Entry, max: nat, st': Store)
    requires EmptyIdOldest(st)
    ensures Sets(st, id, e, max, st') <==> st' == st[id := e]
  {
    if |st| >= max && id !in st {
      assert st != map[];
      assert Oldest(st, "");
      assert Evicts(st, st);
      forall room | Evicts(st, room) ensures room == st {
        var victim :| Oldest(st, victim) && room == if victim == "" then st else st - {victim};
        assert victim == "";
      }
    }
  }

  lemma ShieldedStep(st: Store, e: Event, max: nat, ttl: nat, st': Store)
    requires EmptyIdOldest(st) && Step(st, e, max, ttl, st')
    requires !e.Expire? && e.id != "" && st[""].lastAccess < e.now
    ensures EmptyIdOldest(st') && st'[""] == st[""]
    ensures st'.Keys == st.Keys + (if Touched(st, e).Some? then {Touched(st, e).value} else {})
  {
    if e.Access? || e.Set? {
      EmptyIdShields(st, e.id, Entry(e.session, e.now), max, st');
    }
  }

  /**
    Once a conversation with the empty id came first and is not used again, nothing is ever evicted:
    the store holds every conversation since, whatever its maximum.
   */
  lemma {:induction false} EmptyIdStopsEviction(sts: seq<Store>, es: seq<Event>, max: nat, ttl: nat)
    requires Run(sts, es, max, ttl) && ClockAdvances(es) && es != []
    requires (es[0].Access? || es[0].Set?) && es[0].id == ""
    requires forall i | 0 < i < |es| :: !es[i].Expire? && es[i].id != ""
    ensures var st := sts[|es|];
      EmptyIdOldest(st) && st[""].lastAccess == es[0].now && st.Keys == LastAccess(sts, es).Keys
    decreases |es|
  {
    var n := |es| - 1;
    var before, front := sts[..n + 1], es[..n];
    if n == 0 {
      assert before[0] == map[] && sts[1] == map["" := Entry(es[0].session, es[0].now)];
    } else {
      assert front[0] == es[0];
      EmptyIdStopsEviction(before, front, max, ttl);
      ShieldedStep(sts[n], es[n], max, ttl, sts[n + 1]);
    }
  }

  /** The events name no other conversations. */
  predicate Uses(es: seq<Event>, ids: set<string>) {
    forall e <- es :: !e.Expire? ==> e.id in ids
  }

  lemma {:induction false} HoldsOnlyUsed(sts: seq<Store>, es: seq<Event>, max: nat, ttl: nat, ids: set<string>)
    requires Run(sts, es, max, ttl) && Uses(es, ids)
    ensures sts[|es|].Keys <= ids
    decreases |es|
  {
    if es != [] {
      var n := |es| - 1;
      HoldsOnlyUsed(sts[..n + 1], es[..n], max, ttl, ids);
      assert es[n] in es;
    }
  }

  /** A run that fills the store with all of `ids`, the empty one first. */
  lemma {:induction false} OverfillingRun(ids: set<string>, max: nat, ttl: nat) returns (sts: seq<Store>, es: seq<Event>)
    requires "" in ids
    ensures Run(sts, es, max, ttl) && Uses(es, ids) && ClockAdvances(es)
    ensures sts[|es|].Keys == ids && EmptyIdOldest(sts[|es|])
    ensures forall i | 0 <= i < |es| :: es[i].now == i + 1
    ensures forall id <- ids :: 0 < sts[|es|][id].lastAccess <= |es|
    decreases |ids|
  {
    if ids == {""} {
      es, sts := [Event.Set("", 0, 1)], [map[], map["" := Entry(0, 1)]];
      assert sts[..1] == [map[]] && es[..0] == [];
      assert Run(sts[..1], es[..0], max, ttl);
      if max == 0 {
        assert Evicts(map[], map[]);
      }
    } else {
      assert ids - {""} != {};
      var id :| id in ids - {""};
      var sts0, es0 := OverfillingRun(ids - {id}, max, ttl);
      var st, e := sts0[|es0|], Event.Set(id, 0, |es0| + 1);
      var st' := st[id := Entry(0, |es0| + 1)];
      EmptyIdShields(st, id, Entry(0, |es0| + 1), max, st');
      RunExtends(sts0, es0, max, ttl, e, st');
      sts, es := sts0 + [st'], es0 + [e];
    }
  }

  /**
    Over a given set of conversation ids, no run exceeds the maximum, exactly when the empty id is not
    among them or the whole set fits.
   */
  lemma BoundHoldsExactly(ids: set<string>, max: nat, ttl: nat)
    requires 1 <= max
    ensures (forall sts: seq<Store>, es: seq<Event> | Run(sts, es, max, ttl) && Uses(es, ids) :: |sts[|es|]| <= max)
      <==> "" !in ids || |ids| <= max
  {
    forall sts: seq<Store>, es: seq<Event> | Run(sts, es, max, ttl) && Uses(es, ids) && ("" !in ids || |ids| <= max)
      ensures |sts[|es|]| <= max
    {
      if "" !in ids {
        SizeIsBounded(sts, es, max, ttl);
      } else {
        HoldsOnlyUsed(sts, es, max, ttl, ids);
        SubsetSize(sts[|es|].Keys, ids);
      }
    }
    if "" in ids && |ids| > max {
      var sts, es := OverfillingRun(ids, max, ttl);
      assert |sts[|es|]| == |sts[|es|].Keys| == |ids|;
    }
  }
}
