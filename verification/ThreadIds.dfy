/**
 Thread ids (`ThreadId` and the ThreadEnter/ThreadExit requests in service.rs): a cyclic cursor
 over 2048 used flags, and what every trace of enters and exits keeps.
 */
module ThreadIds {
  import opened Common

  const MAX_THREAD_NUM: nat := 2048

  /** `used[i]`: id i is taken; `cursor`: where the next search starts. */
  datatype Ids = Ids(used: seq<bool>, cursor: nat)

  predicate WellFormed(s: Ids) {
    |s.used| == MAX_THREAD_NUM && s.cursor < MAX_THREAD_NUM
  }

  function After(i: nat): nat {
    if i + 1 < MAX_THREAD_NUM then i + 1 else 0
  }

  /** The id `k` places after the cursor, cyclically. */
  function Place(cursor: nat, k: nat): nat {
    if cursor + k < MAX_THREAD_NUM then cursor + k else cursor + k - MAX_THREAD_NUM
  }

  /** `r` is the cyclically first unused id at or after the cursor. */
  ghost predicate FirstUnused(s: Ids, r: nat)
    requires WellFormed(s)
  {
    exists k: nat :: k < MAX_THREAD_NUM && IsFirstAt(s, r, k)
  }

  ghost predicate IsFirstAt(s: Ids, r: nat, k: nat)
    requires WellFormed(s) && k < MAX_THREAD_NUM
  {
    r == Place(s.cursor, k) && !s.used[r] && forall j :: 0 <= j < k ==> s.used[Place(s.cursor, j)]
  }

  ghost predicate Full(s: Ids) {
    forall i :: 0 <= i < |s.used| ==> s.used[i]
  }

  /** `ThreadId::next`, searching at most `fuel` more places. */
  function NextFrom(s: Ids, fuel: nat): (r: (Ids, Option<nat>))
    requires WellFormed(s)
    ensures WellFormed(r.0)
    decreases fuel
  {
    if fuel == 0 then (s, None)
    else if s.used[s.cursor] then NextFrom(s.(cursor := After(s.cursor)), fuel - 1)
    else (Ids(s.used[s.cursor := true], After(s.cursor)), Some(s.cursor))
  }

  function Next(s: Ids): (r: (Ids, Option<nat>))
    requires WellFormed(s)
    ensures WellFormed(r.0)
  {
    NextFrom(s, MAX_THREAD_NUM)
  }

  /** `ThreadId::free`; an id out of range panics. */
  function Free(s: Ids, id: nat): Option<Ids>
    requires WellFormed(s)
  {
    if id < MAX_THREAD_NUM then Some(s.(used := s.used[id := false])) else None
  }

  lemma {:induction false} NextFromMeaning(s: Ids, fuel: nat)
    requires WellFormed(s) && fuel <= MAX_THREAD_NUM
    ensures var (s', r) := NextFrom(s, fuel);
            && (r.None? ==> s' == s.(cursor := Place(s.cursor, fuel)) && forall j :: 0 <= j < fuel ==>
                s.used[Place(s.cursor, j)])
            && (r.Some? ==>
                  && r.value < MAX_THREAD_NUM
                  && s'.used == s.used[r.value := true] && s'.cursor == After(r.value)
                  && exists k: nat :: k < fuel && IsFirstAt(s, r.value, k))
    decreases fuel
  {
    if fuel > 0 {
      if s.used[s.cursor] {
        var t := s.(cursor := After(s.cursor));
        NextFromMeaning(t, fuel - 1);
        assert Place(s.cursor, 0) == s.cursor;
        assert forall j :: 0 <= j < fuel - 1 ==> Place(t.cursor, j) == Place(s.cursor, j + 1);
        var (s', r) := NextFrom(t, fuel - 1);
        if r.None? {
          forall j | 0 <= j < fuel ensures s.used[Place(s.cursor, j)] {
            if j > 0 {
              assert Place(t.cursor, j - 1) == Place(s.cursor, j);
            }
          }
        } else {
          var k: nat :| k < fuel - 1 && IsFirstAt(t, r.value, k);
          forall j | 0 <= j < k + 1 ensures s.used[Place(s.cursor, j)] {
            if j > 0 {
              assert Place(t.cursor, j - 1) == Place(s.cursor, j);
            }
          }
          assert IsFirstAt(s, r.value, k + 1);
        }
      } else {
        assert IsFirstAt(s, s.cursor, 0);
      }
    }
  }

  lemma PlacesCover(cursor: nat, i: nat) returns (j: nat)
    requires cursor < MAX_THREAD_NUM && i < MAX_THREAD_NUM
    ensures j < MAX_THREAD_NUM && Place(cursor, j) == i
  {
    j := if cursor <= i then i - cursor else i + MAX_THREAD_NUM - cursor;
  }

  /** `next` hands out the cyclically first unused id at or after the cursor, takes exactly it, and
      moves the cursor just past it; it fails exactly when every id is in use, and then changes
      nothing, cursor included. */
  lemma NextMeaning(s: Ids)
    requires WellFormed(s)
    ensures var (s', r) := Next(s);
            && (r.None? <==> Full(s))
            && (r.None? ==> s' == s)
            && (r.Some? ==>
                  && r.value < MAX_THREAD_NUM && FirstUnused(s, r.value) && !s.used[r.value]
                  && s' == Ids(s.used[r.value := true], After(r.value)))
  {
    NextFromMeaning(s, MAX_THREAD_NUM);
    var (s', r) := Next(s);
    if r.None? {
      forall i | 0 <= i < |s.used| ensures s.used[i] {
        var j := PlacesCover(s.cursor, i);
      }
    }
  }

  // ----- traces -----

  type Thread = nat

  datatype Event = Enter(t: Thread) | Exit(t: Thread, id: nat)

  /** The server's state and the id each live thread was given. */
  datatype Server = Server(ids: Ids, live: map<Thread, nat>)

  /** Live threads hold distinct ids, and the used flags are exactly the held ids. */
  ghost predicate Consistent(s: Server) {
    && WellFormed(s.ids)
    && (forall t :: t in s.live ==> s.live[t] < MAX_THREAD_NUM && s.ids.used[s.live[t]])
    && (forall t, u :: t in s.live && u in s.live && t != u ==> s.live[t] != s.live[u])
    && (forall i :: 0 <= i < MAX_THREAD_NUM && s.ids.used[i] ==> exists t :: t in s.live && s.live[t] == i)
  }

  /** A thread enters once, and exits with the id it holds. */
  predicate Honest(s: Server, e: Event) {
    match e
    case Enter(t) => t !in s.live
    case Exit(t, id) => t in s.live && s.live[t] == id
  }

  /** Handling one request. */
  function Handle(s: Server, e: Event): Server
    requires WellFormed(s.ids)
  {
    match e
    case Enter(t) =>
      var (ids, r) := Next(s.ids);
      Server(ids, if r.Some? then s.live[t := r.value] else s.live)
    case Exit(t, id) =>
      var ids := Free(s.ids, id);
      Server(if ids.Some? then ids.value else s.ids, s.live - {t})
  }

  /** Giving an unused id to a new thread. */
  lemma GrantConsistent(s: Server, t: Thread, id: nat, cursor: nat)
    requires Consistent(s) && t !in s.live && id < MAX_THREAD_NUM && !s.ids.used[id] && cursor < MAX_THREAD_NUM
    ensures Consistent(Server(Ids(s.ids.used[id := true], cursor), s.live[t := id]))
  {
    var s' := Server(Ids(s.ids.used[id := true], cursor), s.live[t := id]);
    assert forall u :: u in s.live ==> s.live[u] != id;
    forall i | 0 <= i < MAX_THREAD_NUM && s'.ids.used[i] ensures exists u :: u in s'.live && s'.live[u] == i {
      if i == id {
        assert s'.live[t] == i;
      } else {
        var u :| u in s.live && s.live[u] == i;
        assert s'.live[u] == i;
      }
    }
  }

  lemma EnterConsistent(s: Server, t: Thread)
    requires Consistent(s) && t !in s.live
    ensures Consistent(Handle(s, Enter(t)))
  {
    NextMeaning(s.ids);
    var (ids, r) := Next(s.ids);
    if r.Some? {
      GrantConsistent(s, t, r.value, After(r.value));
    }
  }

  lemma ExitConsistent(s: Server, t: Thread)
    requires Consistent(s) && t in s.live
    ensures Consistent(Handle(s, Exit(t, s.live[t])))
  {
    var id := s.live[t];
    var s' := Handle(s, Exit(t, id));
    forall i | 0 <= i < MAX_THREAD_NUM && s'.ids.used[i] ensures exists u :: u in s'.live && s'.live[u] == i {
      var u :| u in s.live && s.live[u] == i;
      assert u != t && s'.live[u] == i;
    }
  }

  ghost predicate HonestTrace(s: Server, es: seq<Event>)
    requires WellFormed(s.ids)
    decreases |es|
  {
    es == [] || (Honest(s, es[0]) && HonestTrace(Handle(s, es[0]), es[1..]))
  }

  function HandleAll(s: Server, es: seq<Event>): Server
    requires WellFormed(s.ids)
    decreases |es|
  {
    if es == [] then s else HandleAll(Handle(s, es[0]), es[1..])
  }

  function Initial(): Server {
    Server(Ids(seq(MAX_THREAD_NUM, _ => false), 0), map[])
  }

  lemma InitialConsistent()
    ensures Consistent(Initial())
  {
  }

  /** Over every trace of enters and exits of live ids, live ids are pairwise distinct and below
      2048, and the flags are exactly the live ids. */
  lemma {:induction false} TraceConsistent(s: Server, es: seq<Event>)
    requires Consistent(s) && HonestTrace(s, es)
    ensures Consistent(HandleAll(s, es))
    decreases |es|
  {
    if es != [] {
      match es[0] {
        case Enter(t) => EnterConsistent(s, t);
        case Exit(t, _) => ExitConsistent(s, t);
      }
      TraceConsistent(Handle(s, es[0]), es[1..]);
    }
  }

  // ----- exits nobody checks -----

  ghost predicate LiveDistinct(s: Server) {
    forall t, u :: t in s.live && u in s.live && t != u ==> s.live[t] != s.live[u]
  }

  /** Live threads hold distinct ids in use; ids may be in use that nobody holds. */
  ghost predicate Held(s: Server) {
    WellFormed(s.ids) && LiveDistinct(s) && forall t :: t in s.live ==>
        s.live[t] < MAX_THREAD_NUM && s.ids.used[s.live[t]]
  }

  lemma HandleHeld(s: Server, e: Event)
    requires Held(s) && Honest(s, e)
    ensures Held(Handle(s, e))
  {
    NextMeaning(s.ids);
  }

  lemma {:induction false} TraceHeld(s: Server, es: seq<Event>)
    requires Held(s) && HonestTrace(s, es)
    ensures LiveDistinct(HandleAll(s, es))
    decreases |es|
  {
    if es != [] {
      HandleHeld(s, es[0]);
      TraceHeld(Handle(s, es[0]), es[1..]);
    }
  }

  lemma FreshThread(live: map<Thread, nat>) returns (t: Thread)
    ensures t !in live
  {
    var names := live.Keys;
    if Below(|names| + 1) <= names {
      SubsetSize(Below(|names| + 1), names);
      assert false;
    }
    t :| t in Below(|names| + 1) && t !in names;
  }

  /** An enter takes the free id `d` places ahead, or one before it and leaves it fewer ahead. */
  lemma EnterApproaches(s: Ids, d: nat) returns (rest: nat)
    requires WellFormed(s) && d < MAX_THREAD_NUM && !s.used[Place(s.cursor, d)]
    ensures Next(s).1.Some?
    ensures var (s', r) := Next(s);
            r.value == Place(s.cursor, d)
            || (rest < d && !s'.used[Place(s.cursor, d)] && Place(s'.cursor, rest) == Place(s.cursor, d))
  {
    NextMeaning(s);
    var (s', r) := Next(s);
    var k: nat :| k < MAX_THREAD_NUM && IsFirstAt(s, r.value, k);
    rest := if k < d then d - k - 1 else 0;
  }

  /** A free id that a live thread still holds is handed out again after enough enters. */
  lemma {:induction false} HandedOutAgain(s: Server, u: Thread, d: nat) returns (es: seq<Event>)
    requires WellFormed(s.ids) && d < MAX_THREAD_NUM
    requires u in s.live && s.live[u] == Place(s.ids.cursor, d) && !s.ids.used[s.live[u]]
    ensures HonestTrace(s, es) && !LiveDistinct(HandleAll(s, es))
    decreases d
  {
    var t := FreshThread(s.live);
    var rest := EnterApproaches(s.ids, d);
    var s' := Handle(s, Enter(t));
    assert s'.live[u] == s.live[u];
    if s'.live[t] == s.live[u] {
      es := [Enter(t)];
      assert es[1..] == [];
      assert HandleAll(s, es) == s';
    } else {
      var later := HandedOutAgain(s', u, rest);
      es := [Enter(t)] + later;
      assert es[1..] == later;
    }
  }

  ghost predicate StaysDistinct(s: Server)
    requires WellFormed(s.ids)
  {
    forall es: seq<Event> :: HonestTrace(s, es) ==> LiveDistinct(HandleAll(s, es))
  }

  /** The server does not check who exits.  For every consistent server and every exit of any thread
      with any id: live ids stay distinct over all honest continuations if and only if no other live
      thread holds the id. */
  lemma ForeignExitIff(s: Server, t: Thread, id: nat)
    requires Consistent(s) && id < MAX_THREAD_NUM
    ensures StaysDistinct(Handle(s, Exit(t, id))) <==> !exists u :: u in s.live && u != t && s.live[u] == id
  {
    var s' := Handle(s, Exit(t, id));
    if u :| u in s.live && u != t && s.live[u] == id {
      var d := PlacesCover(s'.ids.cursor, id);
      var es := HandedOutAgain(s', u, d);
    } else {
      assert Held(s');
      forall es: seq<Event> | HonestTrace(s', es) ensures LiveDistinct(HandleAll(s', es)) {
        TraceHeld(s', es);
      }
    }
  }

  /** From the initial server: thread 1 enters and gets id 0; an exit with id 0 in another thread's
      name lets a later honest enter share it. */
  lemma ForeignExitWitness()
    ensures var s := Handle(Initial(), Enter(1));
            && s.live == map[1 := 0]
            && !StaysDistinct(Handle(s, Exit(2, 0)))
  {
    var s := Handle(Initial(), Enter(1));
    assert Next(Initial().ids) == (Ids(Initial().ids.used[0 := true], 1), Some(0));
    InitialConsistent();
    EnterConsistent(Initial(), 1);
    assert 1 in s.live && s.live[1] == 0;
    ForeignExitIff(s, 2, 0);
  }

  // ----- the allocator object -----

  class Allocator {
    const used: array<bool>
    var nextThreadId: nat

    ghost predicate Valid()
      reads this, used
    {
      WellFormed(View())
    }

    ghost function View(): Ids
      reads this, used
    {
      Ids(used[..], nextThreadId)
    }

    constructor ()
      ensures Valid() && View() == Initial().ids && fresh(used)
    {
      used := new bool[MAX_THREAD_NUM](_ => false);
      nextThreadId := 0;
      new;
      assert used[..] == seq(MAX_THREAD_NUM, _ => false);
    }

    /** The search loop of `next`. */
    method NextId() returns (r: Option<nat>)
      requires Valid()
      modifies this, used
      ensures Valid() && (View(), r) == Next(old(View()))
    {
      for i := 0 to MAX_THREAD_NUM
        invariant Valid() && used[..] == old(used[..])
        invariant NextFrom(View(), MAX_THREAD_NUM - i) == Next(old(View()))
      {
        if used[nextThreadId] {
          nextThreadId := (nextThreadId + 1) % MAX_THREAD_NUM;
        } else {
          var id := nextThreadId;
          nextThreadId := (nextThreadId + 1) % MAX_THREAD_NUM;
          used[id] := true;
          assert used[..] == old(used[..])[id := true];
          return Some(id);
        }
      }
      return None;
    }

    /** `free`; `false` stands for the out-of-bounds panic. */
    method FreeId(id: nat) returns (ok: bool)
      requires Valid()
      modifies used
      ensures Valid()
      ensures ok <==> Free(old(View()), id).Some?
      ensures View() == if ok then Free(old(View()), id).value else old(View())
    {
      if id >= MAX_THREAD_NUM {
        return false;
      }
      used[id] := false;
      assert used[..] == old(used[..])[id := false];
      return true;
    }
  }
}
