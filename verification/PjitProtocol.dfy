/** The compile-once protocol of PjitFunction::Call: threads that look up, create, compile, wait for
    and evict cache entries, in every interleaving. Calls nest: tracing runs Python, which may call
    jitted functions again. */
module PjitProtocol {
  import opened Wrappers

  type Thread = nat
  type EntryId = nat
  type Signature = nat

  /** The fields that PopulateCacheEntry fills, one after the other. */
  const NumFields := 11

  /** A PjitCacheEntry. `depth` and `attempts` are auxiliary: the position of the creating call in
      its thread's stack, and how often the entry has been compiled. */
  datatype Entry = Entry(sig: Signature, threadId: Thread, filled: nat, fallBackToPython: bool, notified: bool,
                         depth: nat, attempts: nat)

  /** Where a call stands. */
  datatype Point =
    | LookedUp(inserted: bool)   // after GetOrCreateIfAbsent
    | Missing                    // inside cache_miss(), which runs Python
    | Populating                 // inside PopulateCacheEntry
    | Populated                  // before Notify
    | Failed                     // in the catch block, before Notify
    | Removing(failed: bool)     // after Notify, before the return or the rethrow
    | Waiting                    // in WaitForNotification
    | Ready                      // before the test of fall_back_to_python
    | Python                     // inside fallback_to_cache_miss(), which runs Python
    | Executing                  // on the fast path, whose shard_arg_fallback may run Python

  datatype Call = Call(sig: Signature, entry: EntryId, at: Point)

  datatype State = State(entries: map<EntryId, Entry>, cache: map<Signature, EntryId>, stacks: map<Thread, seq<Call>>)

  const Initial := State(map[], map[], map[])

  function Stack(s: State, t: Thread): seq<Call> {
    if t in s.stacks then s.stacks[t] else []
  }

  function Top(s: State, t: Thread): Call
    requires Stack(s, t) != []
  {
    Stack(s, t)[|Stack(s, t)| - 1]
  }

  function WithTop(s: State, t: Thread, at: Point): State
    requires Stack(s, t) != []
  {
    var k := |Stack(s, t)| - 1;
    s.(stacks := s.stacks[t := Stack(s, t)[k := Top(s, t).(at := at)]])
  }

  function Popped(s: State, t: Thread): State
    requires Stack(s, t) != []
  {
    s.(stacks := s.stacks[t := Stack(s, t)[..|Stack(s, t)| - 1]])
  }

  function WithEntry(s: State, id: EntryId, e: Entry): State {
    s.(entries := s.entries[id := e])
  }

  /** What can happen next. `newId`, in Begin, is the address of the entry if one is created. */
  datatype Step =
    | Begin(t: Thread, sig: Signature, newId: EntryId)  // a call reaches the cache
    | Test(t: Thread)                                   // HasBeenNotified and the branches below it
    | MissReturns(t: Thread, hasFastpath: bool)         // cache_miss returns a tuple
    | Fill(t: Thread)                                   // one field of PopulateCacheEntry
    | Throws(t: Thread)                                 // cache_miss or PopulateCacheEntry throws
    | Notify(t: Thread)
    | Remove(t: Thread, removeCache: bool)              // the end of the creating call
    | Wake(t: Thread)                                   // WaitForNotification returns
    | Choose(t: Thread)                                 // fall_back_to_python or the fast path
    | PrepareFails(t: Thread)                           // PrepareIfrtInputs fails: fallback_to_cache_miss
    | Finish(t: Thread)                                 // the call returns, or throws
    | Evict(sig: Signature)                             // LRU eviction, or ClearCache

  /** Python runs in a thread when it has no call in progress or its last one may run Python. */
  predicate RunsPython(s: State, t: Thread) {
    Stack(s, t) == [] || Top(s, t).at.Missing? || Top(s, t).at.Python? || Top(s, t).at.Executing?
  }

  predicate At(s: State, t: Thread, at: Point) {
    Stack(s, t) != [] && Top(s, t).at == at && Top(s, t).entry in s.entries
  }

  function Apply(s: State, step: Step): Option<State> {
    match step
    case Begin(t, sig, newId) =>
      if !RunsPython(s, t) then None
      else if sig in s.cache then
        Some(s.(stacks := s.stacks[t := Stack(s, t) + [Call(sig, s.cache[sig], LookedUp(false))]]))
      else if newId in s.entries then None
      else
        var e := Entry(sig, t, 0, false, false, |Stack(s, t)|, 0);
        Some(State(s.entries[newId := e], s.cache[sig := newId],
                   s.stacks[t := Stack(s, t) + [Call(sig, newId, LookedUp(true))]]))
    case Test(t) =>
      if Stack(s, t) == [] || !Top(s, t).at.LookedUp? || Top(s, t).entry !in s.entries then None
      else
        var id := Top(s, t).entry;
        var e := s.entries[id];
        if e.notified then Some(WithTop(s, t, Ready))
        else if Top(s, t).at.inserted then Some(WithEntry(WithTop(s, t, Missing), id, e.(attempts := e.attempts + 1)))
        else if e.threadId == t then Some(Popped(s, t))  // RecursionError
        else Some(WithTop(s, t, Waiting))
    case MissReturns(t, hasFastpath) =>
      if !At(s, t, Missing) then None
      else if hasFastpath then Some(WithTop(s, t, Populating))
      else
        var id := Top(s, t).entry;
        Some(WithEntry(WithTop(s, t, Populated), id, s.entries[id].(fallBackToPython := true)))
    case Fill(t) =>
      if !At(s, t, Populating) then None
      else
        var id := Top(s, t).entry;
        var e := s.entries[id];
        Some(WithEntry(WithTop(s, t, if e.filled + 1 >= NumFields then Populated else Populating), id,
                       e.(filled := e.filled + 1)))
    case Throws(t) =>
      if !(At(s, t, Missing) || At(s, t, Populating) || At(s, t, Populated)) then None
      else
        var id := Top(s, t).entry;
        Some(WithEntry(WithTop(s, t, Failed), id, s.entries[id].(fallBackToPython := true)))
    case Notify(t) =>
      if !(At(s, t, Populated) || At(s, t, Failed)) then None
      else
        var id := Top(s, t).entry;
        Some(WithEntry(WithTop(s, t, Removing(Top(s, t).at.Failed?)), id, s.entries[id].(notified := true)))
    case Remove(t, removeCache) =>
      if !(At(s, t, Removing(false)) || (At(s, t, Removing(true)) && !removeCache)) then None
      else
        var s1 := Popped(s, t);
        Some(if removeCache then s1.(cache := s1.cache - {Top(s, t).sig}) else s1)
    case Wake(t) =>
      if !At(s, t, Waiting) || !s.entries[Top(s, t).entry].notified then None else Some(WithTop(s, t, Ready))
    case Choose(t) =>
      if !At(s, t, Ready) then None
      else Some(WithTop(s, t, if s.entries[Top(s, t).entry].fallBackToPython then Python else Executing))
    case PrepareFails(t) =>
      if !At(s, t, Executing) then None else Some(WithTop(s, t, Python))
    case Finish(t) =>
      if !(At(s, t, Python) || At(s, t, Executing)) then None else Some(Popped(s, t))
    case Evict(sig) => Some(s.(cache := s.cache - {sig}))
  }

  ghost predicate Next(s: State, s': State) {
    exists step :: Apply(s, step) == Some(s')
  }

  /** A finite run from the initial state. */
  ghost predicate Run(ss: seq<State>) {
    && ss != [] && ss[0] == Initial
    && forall i :: 0 <= i < |ss| - 1 ==> Next(ss[i], ss[i + 1])
  }

  // ---------- what every step keeps ----------

  /** The call has created its entry and has not notified it yet. */
  predicate Creating(at: Point) {
    at == LookedUp(true) || at.Missing? || at.Populating? || at.Populated? || at.Failed?
  }

  predicate Complete(e: Entry) {
    e.filled >= NumFields || e.fallBackToPython
  }

  /** How far its creating call has brought an entry. */
  predicate Progress(at: Point, e: Entry) {
    match at
    case LookedUp(_) => e.attempts == 0 && e.filled == 0 && !e.fallBackToPython
    case Missing => e.attempts == 1 && e.filled == 0 && !e.fallBackToPython
    case Populating => e.attempts == 1 && e.filled < NumFields && !e.fallBackToPython
    case Populated => e.attempts == 1 && Complete(e)
    case Failed => e.attempts == 1 && e.fallBackToPython
    case _ => true
  }

  /** What holds of the `i`-th call of thread `t`. */
  ghost predicate CallOk(s: State, t: Thread, i: nat)
    requires i < |Stack(s, t)|
  {
    var c := Stack(s, t)[i];
    && c.entry in s.entries
    && var e := s.entries[c.entry];
    && e.sig == c.sig
    && (Creating(c.at) ==> e.threadId == t && e.depth == i && !e.notified && Progress(c.at, e))
    && (c.at.Waiting? ==> e.threadId != t)
    && (c.at.Removing? || c.at.Ready? || c.at.Python? || c.at.Executing? ==> e.notified)
    && (c.at.Executing? ==> !e.fallBackToPython)
  }

  /** What holds of an entry: until it is notified, the call that has created it is on the stack of
      its thread and at work on it. */
  ghost predicate EntryOk(s: State, id: EntryId)
    requires id in s.entries
  {
    var e := s.entries[id];
    && e.attempts <= 1
    && (e.notified ==> Complete(e) && e.attempts == 1)
    && (!e.notified ==>
         e.depth < |Stack(s, e.threadId)|
         && Stack(s, e.threadId)[e.depth].entry == id && Creating(Stack(s, e.threadId)[e.depth].at))
  }

  ghost predicate Inv(s: State) {
    && (forall sig :: sig in s.cache ==> s.cache[sig] in s.entries && s.entries[s.cache[sig]].sig == sig)
    && (forall t: Thread, i: nat :: i < |Stack(s, t)| ==> CallOk(s, t, i))
    && (forall id :: id in s.entries ==> EntryOk(s, id))
  }

  lemma CacheRemoved(s: State, sigs: set<Signature>)
    requires Inv(s)
    ensures Inv(s.(cache := s.cache - sigs))
  {
    var s' := s.(cache := s.cache - sigs);
    forall t: Thread, i: nat | i < |Stack(s', t)| ensures CallOk(s', t, i) {
      assert CallOk(s, t, i);
    }
    forall id | id in s'.entries ensures EntryOk(s', id) {
      assert EntryOk(s, id);
    }
  }

  /** The last call of a thread may move on to `at`, and update the entry that it has created to `e`. */
  ghost predicate MayMove(s: State, t: Thread, at: Point, e: Entry) {
    && Stack(s, t) != [] && Top(s, t).entry in s.entries
    && (var was := s.entries[Top(s, t).entry];
        && e.sig == was.sig && e.threadId == was.threadId && e.depth == was.depth
        && (e == was || Creating(Top(s, t).at)))
    && (Creating(at) ==> Creating(Top(s, t).at) && !e.notified && Progress(at, e))
    && (Creating(Top(s, t).at) && !Creating(at) ==> e.notified)
    && e.attempts <= 1 && (e.notified ==> Complete(e) && e.attempts == 1)
    && (at.Waiting? ==> e.threadId != t)
    && (at.Removing? || at.Ready? || at.Python? || at.Executing? ==> e.notified)
    && (at.Executing? ==> !e.fallBackToPython)
  }

  lemma CallsMove(s: State, t: Thread, at: Point, e: Entry, u: Thread, i: nat)
    requires Inv(s) && MayMove(s, t, at, e)
    requires i < |Stack(WithEntry(WithTop(s, t, at), Top(s, t).entry, e), u)|
    ensures CallOk(WithEntry(WithTop(s, t, at), Top(s, t).entry, e), u, i)
  {
    hide Complete;
    assert CallOk(s, t, |Stack(s, t)| - 1);
    assert CallOk(s, u, i);
  }

  lemma EntriesMove(s: State, t: Thread, at: Point, e: Entry, id: EntryId)
    requires Inv(s) && MayMove(s, t, at, e) && id in s.entries
    ensures EntryOk(WithEntry(WithTop(s, t, at), Top(s, t).entry, e), id)
  {
    hide Progress;
    assert CallOk(s, t, |Stack(s, t)| - 1);
    assert EntryOk(s, id);
  }

  lemma MoveOn(s: State, t: Thread, at: Point, e: Entry)
    requires Inv(s) && MayMove(s, t, at, e)
    ensures Inv(WithEntry(WithTop(s, t, at), Top(s, t).entry, e))
  {
    var s' := WithEntry(WithTop(s, t, at), Top(s, t).entry, e);
    assert s'.entries.Keys == s.entries.Keys && s'.cache == s.cache;
    forall u: Thread, i: nat | i < |Stack(s', u)| ensures CallOk(s', u, i) {
      CallsMove(s, t, at, e, u, i);
    }
    forall id | id in s'.entries ensures EntryOk(s', id) {
      EntriesMove(s, t, at, e, id);
    }
  }

  /** A call that is not creating an entry ends. */
  lemma CallEnds(s: State, t: Thread)
    requires Inv(s) && Stack(s, t) != [] && !Creating(Top(s, t).at)
    ensures Inv(Popped(s, t))
  {
    var s' := Popped(s, t);
    forall u: Thread, i: nat | i < |Stack(s', u)| ensures CallOk(s', u, i) {
      assert CallOk(s, u, i);
    }
    forall id | id in s'.entries ensures EntryOk(s', id) {
      assert EntryOk(s, id);
    }
  }

  lemma CallFinds(s: State, t: Thread, sig: Signature)
    requires Inv(s) && sig in s.cache
    ensures Inv(s.(stacks := s.stacks[t := Stack(s, t) + [Call(sig, s.cache[sig], LookedUp(false))]]))
  {
    var s' := s.(stacks := s.stacks[t := Stack(s, t) + [Call(sig, s.cache[sig], LookedUp(false))]]);
    forall u: Thread, i: nat | i < |Stack(s', u)| ensures CallOk(s', u, i) {
      if i < |Stack(s, u)| {
        assert CallOk(s, u, i);
      }
    }
    forall id | id in s'.entries ensures EntryOk(s', id) {
      assert EntryOk(s, id);
    }
  }

  lemma CallCreates(s: State, t: Thread, sig: Signature, newId: EntryId)
    requires Inv(s) && sig !in s.cache && newId !in s.entries
    ensures var e := Entry(sig, t, 0, false, false, |Stack(s, t)|, 0);
            Inv(State(s.entries[newId := e], s.cache[sig := newId],
                      s.stacks[t := Stack(s, t) + [Call(sig, newId, LookedUp(true))]]))
  {
    var e := Entry(sig, t, 0, false, false, |Stack(s, t)|, 0);
    var s' := State(s.entries[newId := e], s.cache[sig := newId],
                    s.stacks[t := Stack(s, t) + [Call(sig, newId, LookedUp(true))]]);
    forall u: Thread, i: nat | i < |Stack(s', u)| ensures CallOk(s', u, i) {
      if i < |Stack(s, u)| {
        assert CallOk(s, u, i);
      }
    }
    forall id | id in s'.entries ensures EntryOk(s', id) {
      if id != newId {
        assert EntryOk(s, id);
      }
    }
  }

  lemma StepKeeps(s: State, step: Step)
    requires Inv(s) && Apply(s, step).Some?
    ensures Inv(Apply(s, step).value)
  {
    hide Inv, EntryOk;
    match step
    case Begin(t, sig, newId) =>
      if sig in s.cache {
        CallFinds(s, t, sig);
      } else {
        CallCreates(s, t, sig, newId);
      }
    case Evict(sig) => CacheRemoved(s, {sig});
    case Test(t) => TestKeeps(s, t);
    case Remove(t, removeCache) =>
      CallEnds(s, t);
      if removeCache {
        CacheRemoved(Popped(s, t), {Top(s, t).sig});
      }
    case Finish(t) => CallEnds(s, t);
    case MissReturns(t, hasFastpath) => CreatorKeeps(s, step, t);
    case Fill(t) => CreatorKeeps(s, step, t);
    case Throws(t) => CreatorKeeps(s, step, t);
    case Notify(t) => CreatorKeeps(s, step, t);
    case Wake(t) => WaiterKeeps(s, step, t);
    case Choose(t) => WaiterKeeps(s, step, t);
    case PrepareFails(t) => WaiterKeeps(s, step, t);
  }

  lemma TopFacts(s: State, t: Thread)
    requires Inv(s) && Stack(s, t) != []
    ensures CallOk(s, t, |Stack(s, t)| - 1) && Top(s, t).entry in s.entries && EntryOk(s, Top(s, t).entry)
  {
  }

  lemma TestKeeps(s: State, t: Thread)
    requires Inv(s) && Apply(s, Test(t)).Some?
    ensures Inv(Apply(s, Test(t)).value)
  {
    hide Inv;
    TopFacts(s, t);
    var id := Top(s, t).entry;
    var e := s.entries[id];
    assert WithEntry(WithTop(s, t, Ready), id, e) == WithTop(s, t, Ready);
    assert WithEntry(WithTop(s, t, Waiting), id, e) == WithTop(s, t, Waiting);
    if e.notified {
      MoveOn(s, t, Ready, e);
    } else if Top(s, t).at.inserted {
      MoveOn(s, t, Missing, e.(attempts := e.attempts + 1));
    } else if e.threadId == t {
      CallEnds(s, t);
    } else {
      MoveOn(s, t, Waiting, e);
    }
  }

  lemma CreatorKeeps(s: State, step: Step, t: Thread)
    requires Inv(s) && Apply(s, step).Some?
    requires step == Fill(t) || step == Throws(t) || step == Notify(t) || (step.MissReturns? && step.t == t)
    ensures Inv(Apply(s, step).value)
  {
    hide Inv;
    TopFacts(s, t);
    var id := Top(s, t).entry;
    var e := s.entries[id];
    match step
    case MissReturns(_, hasFastpath) =>
      if hasFastpath {
        assert WithEntry(WithTop(s, t, Populating), id, e) == WithTop(s, t, Populating);
        MoveOn(s, t, Populating, e);
      } else {
        MoveOn(s, t, Populated, e.(fallBackToPython := true));
      }
    case Fill(_) =>
      MoveOn(s, t, if e.filled + 1 >= NumFields then Populated else Populating, e.(filled := e.filled + 1));
    case Throws(_) => MoveOn(s, t, Failed, e.(fallBackToPython := true));
    case Notify(_) => MoveOn(s, t, Removing(Top(s, t).at.Failed?), e.(notified := true));
  }

  lemma WaiterKeeps(s: State, step: Step, t: Thread)
    requires Inv(s) && Apply(s, step).Some? && (step == Wake(t) || step == Choose(t) || step == PrepareFails(t))
    ensures Inv(Apply(s, step).value)
  {
    hide Inv;
    TopFacts(s, t);
    var id := Top(s, t).entry;
    var e := s.entries[id];
    var at := match step
      case Wake(_) => Ready
      case Choose(_) => if e.fallBackToPython then Python else Executing
      case PrepareFails(_) => Python;
    assert WithEntry(WithTop(s, t, at), id, e) == WithTop(s, t, at);
    MoveOn(s, t, at, e);
  }

  lemma {:induction false} RunKeeps(ss: seq<State>, i: nat)
    requires Run(ss) && i < |ss|
    ensures Inv(ss[i])
  {
    if i > 0 {
      RunKeeps(ss, i - 1);
      assert Next(ss[i - 1], ss[i - 1 + 1]);
      var step :| Apply(ss[i - 1], step) == Some(ss[i]);
      StepKeeps(ss[i - 1], step);
    }
  }

  // ---------- the guarantees, over every run ----------

  /** A call is compiling an entry. */
  predicate Compiles(c: Call, id: EntryId) {
    c.entry == id && Creating(c.at)
  }

  /** In every state of every run: only the thread that has created an entry compiles it, in one call
      and at most once; a notified entry is complete; and an entry that is not notified has a call at
      work on it, so that no one waits for nothing. */
  lemma CompileOnce(ss: seq<State>, n: nat, id: EntryId)
    requires Run(ss) && n < |ss| && id in ss[n].entries
    ensures var s := ss[n];
            var e := s.entries[id];
            && e.attempts <= 1
            && (e.notified ==> Complete(e) && e.attempts == 1)
            && (forall t: Thread, i: nat :: i < |Stack(s, t)| && Compiles(Stack(s, t)[i], id) ==>
                 t == e.threadId && i == e.depth && !e.notified)
            && (!e.notified ==>
                 e.depth < |Stack(s, e.threadId)| && Compiles(Stack(s, e.threadId)[e.depth], id))
  {
    RunKeeps(ss, n);
    var s := ss[n];
    assert EntryOk(s, id);
    forall t: Thread, i: nat | i < |Stack(s, t)| && Compiles(Stack(s, t)[i], id)
      ensures t == s.entries[id].threadId && i == s.entries[id].depth && !s.entries[id].notified
    {
      assert CallOk(s, t, i);
    }
  }

  /** In every state of every run, no call waits for an entry that its own thread has created, and a
      call is on the fast path only with an entry that is notified and fully populated. */
  lemma CallsSafe(ss: seq<State>, n: nat, t: Thread, i: nat)
    requires Run(ss) && n < |ss| && i < |Stack(ss[n], t)|
    ensures var c := Stack(ss[n], t)[i];
            && c.entry in ss[n].entries
            && var e := ss[n].entries[c.entry];
            && e.sig == c.sig
            && (c.at.Waiting? ==> e.threadId != t)
            && (c.at.Executing? ==> e.notified && !e.fallBackToPython && e.filled >= NumFields)
  {
    RunKeeps(ss, n);
    assert CallOk(ss[n], t, i);
    assert EntryOk(ss[n], Stack(ss[n], t)[i].entry);
  }

  lemma NotifiedStays(s: State, step: Step, id: EntryId)
    requires Inv(s) && Apply(s, step).Some? && id in s.entries
    ensures id in Apply(s, step).value.entries
    ensures s.entries[id].notified ==> Apply(s, step).value.entries[id] == s.entries[id]
  {
    if step.MissReturns? || step.Fill? || step.Throws? || step.Notify? || step.Test? {
      TopFacts(s, step.t);
    }
  }

  lemma NotifiedNext(s: State, s': State, id: EntryId)
    requires Inv(s) && Next(s, s') && id in s.entries && s.entries[id].notified
    ensures id in s'.entries && s'.entries[id] == s.entries[id]
  {
    hide Inv, Apply;
    var step :| Apply(s, step) == Some(s');
    NotifiedStays(s, step, id);
  }

  /** Once notified, an entry never changes again, whatever the threads do and even if it is evicted:
      every waiter and every later call sees what its creator has left. */
  lemma {:induction false} NotifiedForever(ss: seq<State>, n: nat, k: nat, id: EntryId)
    requires Run(ss) && n <= k < |ss| && id in ss[n].entries && ss[n].entries[id].notified
    ensures id in ss[k].entries && ss[k].entries[id] == ss[n].entries[id]
    decreases k
  {
    hide Inv, Next;
    if n < k {
      NotifiedForever(ss, n, k - 1, id);
      RunKeeps(ss, k - 1);
      assert Next(ss[k - 1], ss[k - 1 + 1]);
      NotifiedNext(ss[k - 1], ss[k], id);
    }
  }

  /** A thread that asks for an entry which it is compiling itself is told so: it neither waits nor
      compiles a second time. */
  lemma RecursionDetected(ss: seq<State>, n: nat, t: Thread)
    requires Run(ss) && n < |ss| && Apply(ss[n], Test(t)).Some?
    requires !Top(ss[n], t).at.inserted
    requires exists i: nat :: i < |Stack(ss[n], t)| && Compiles(Stack(ss[n], t)[i], Top(ss[n], t).entry)
    ensures Apply(ss[n], Test(t)) == Some(Popped(ss[n], t))
  {
    RunKeeps(ss, n);
    var s := ss[n];
    var i: nat :| i < |Stack(s, t)| && Compiles(Stack(s, t)[i], Top(s, t).entry);
    assert CallOk(s, t, i);
  }
}
