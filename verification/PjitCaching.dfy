/** What the cache of the compile-once protocol is for: a signature gets a new entry only after its last one
    has been removed, and calls that find a finished entry do not compile. */
module PjitCaching {
  import opened Wrappers
  import opened PjitProtocol

  /** Entry `id` for `sig` is made in step `n` of the run. */
  ghost predicate Makes(ss: seq<State>, n: nat, id: EntryId, sig: Signature) {
    n + 1 < |ss| && id !in ss[n].entries && id in ss[n + 1].entries && ss[n + 1].entries[id].sig == sig
  }

  /** Step `n` of the run removes `sig` from the cache: an eviction, or the end of a creating call that asks
      for it. */
  ghost predicate Removes(ss: seq<State>, n: nat, sig: Signature) {
    && n + 1 < |ss| && sig in ss[n].cache && sig !in ss[n + 1].cache
    && exists step :: Apply(ss[n], step) == Some(ss[n + 1]) && RemovesFrom(ss[n], step, sig)
  }

  predicate RemovesFrom(s: State, step: Step, sig: Signature) {
    match step
    case Evict(sig') => sig' == sig
    case Remove(t, removeCache) => removeCache && Stack(s, t) != [] && Top(s, t).sig == sig
    case _ => false
  }

  /** The step that a run takes. */
  lemma StepOf(ss: seq<State>, n: nat) returns (step: Step)
    requires Run(ss) && n + 1 < |ss|
    ensures Apply(ss[n], step) == Some(ss[n + 1])
  {
    hide Apply;
    assert Next(ss[n], ss[n + 1]);
    step :| Apply(ss[n], step) == Some(ss[n + 1]);
  }

  /** A new entry is made only for a signature that is not cached, and is cached from then on. */
  lemma MadeWhenMissing(s: State, step: Step, id: EntryId)
    requires Apply(s, step).Some? && id !in s.entries && id in Apply(s, step).value.entries
    ensures var s' := Apply(s, step).value; var sig := s'.entries[id].sig;
            sig !in s.cache && sig in s'.cache && s'.cache[sig] == id
    ensures forall other :: other in Apply(s, step).value.entries ==> other == id || other in s.entries
  {
  }

  /** A signature leaves the cache exactly through a removal. */
  lemma LostByRemoval(s: State, step: Step, sig: Signature)
    requires Apply(s, step).Some? && sig in s.cache
    ensures sig !in Apply(s, step).value.cache <==> RemovesFrom(s, step, sig)
  {
  }

  /** If a signature is cached in one state and not in a later one, it has been removed in between. */
  lemma {:induction false} LostInBetween(ss: seq<State>, n: nat, k: nat, sig: Signature) returns (r: nat)
    requires Run(ss) && n <= k < |ss| && sig in ss[n].cache && sig !in ss[k].cache
    ensures n <= r < k && Removes(ss, r, sig)
    decreases k
  {
    hide Apply, Run, RemovesFrom;
    if sig in ss[k - 1].cache {
      r := k - 1;
      var step := StepOf(ss, r);
      LostByRemoval(ss[r], step, sig);
    } else {
      r := LostInBetween(ss, n, k - 1, sig);
    }
  }

  /** Between the making of two entries for one signature, the signature has been removed from the cache. */
  lemma NewEntryAfterRemoval(ss: seq<State>, n: nat, k: nat, id: EntryId, id': EntryId, sig: Signature) returns (r: nat)
    requires Run(ss) && n < k && Makes(ss, n, id, sig) && Makes(ss, k, id', sig)
    ensures n < r < k && Removes(ss, r, sig)
  {
    var step := StepOf(ss, n);
    MadeWhenMissing(ss[n], step, id);
    var step' := StepOf(ss, k);
    MadeWhenMissing(ss[k], step', id');
    r := LostInBetween(ss, n + 1, k, sig);
  }

  /** Hence, while a signature is not removed, at most one entry is made for it, and it is compiled at most
      once. */
  lemma CompiledOncePerSignature(ss: seq<State>, from: nat, to: nat, n: nat, k: nat, id: EntryId, id': EntryId,
                                 sig: Signature)
    requires Run(ss) && from <= n < to < |ss| && from <= k < to
    requires forall r :: from <= r < to ==> !Removes(ss, r, sig)
    requires Makes(ss, n, id, sig) && Makes(ss, k, id', sig)
    ensures id == id' && n == k
    ensures forall i :: n < i < |ss| ==> id in ss[i].entries && ss[i].entries[id].attempts <= 1
  {
    hide Inv, Apply, Run, Removes;
    if n < k {
      var r := NewEntryAfterRemoval(ss, n, k, id, id', sig);
      assert false;
    }
    if k < n {
      var r := NewEntryAfterRemoval(ss, k, n, id', id, sig);
      assert false;
    }
    var step := StepOf(ss, n);
    MadeWhenMissing(ss[n], step, id);
    forall i | n < i < |ss| ensures id in ss[i].entries && ss[i].entries[id].attempts <= 1 {
      EntryStays(ss, n + 1, i, id);
      CompileOnce(ss, i, id);
    }
  }

  lemma {:induction false} EntryStays(ss: seq<State>, n: nat, k: nat, id: EntryId)
    requires Run(ss) && n <= k < |ss| && id in ss[n].entries
    ensures id in ss[k].entries
    decreases k
  {
    hide Inv, Apply, Run;
    if n < k {
      EntryStays(ss, n, k - 1, id);
      RunKeeps(ss, k - 1);
      var step := StepOf(ss, k - 1);
      NotifiedStays(ss[k - 1], step, id);
    }
  }

  /** As long as a signature is cached, all calls find the same entry. */
  lemma {:induction false} SameEntryCached(ss: seq<State>, n: nat, k: nat, sig: Signature)
    requires Run(ss) && n <= k < |ss| && forall i :: n <= i <= k ==> sig in ss[i].cache
    ensures ss[k].cache[sig] == ss[n].cache[sig]
    decreases k
  {
    hide Apply, Run;
    if n < k {
      SameEntryCached(ss, n, k - 1, sig);
      var step := StepOf(ss, k - 1);
      CacheKept(ss[k - 1], step, sig);
    }
  }

  lemma CacheKept(s: State, step: Step, sig: Signature)
    requires Apply(s, step).Some? && sig in s.cache && sig in Apply(s, step).value.cache
    ensures Apply(s, step).value.cache[sig] == s.cache[sig]
  {
  }

  // ---------- calls that find a finished entry ----------

  /** The call at position `i` of the stack of `t` uses the finished entry `id`: it has not compiled. */
  ghost predicate OnFastPath(s: State, t: Thread, i: nat, id: EntryId, sig: Signature) {
    && i < |Stack(s, t)|
    && var c := Stack(s, t)[i];
    && c.sig == sig && c.entry == id && id in s.entries && s.entries[id].notified
    && (c.at == LookedUp(false) || c.at == Ready || c.at == Python || c.at == Executing)
  }

  /** No step makes it compile or wait. */
  lemma FastPathStays(s: State, step: Step, t: Thread, i: nat, id: EntryId, sig: Signature)
    requires Inv(s) && Apply(s, step).Some? && OnFastPath(s, t, i, id, sig)
    requires i < |Stack(Apply(s, step).value, t)|
    ensures OnFastPath(Apply(s, step).value, t, i, id, sig)
    ensures Apply(s, step).value.entries[id] == s.entries[id]
  {
    NotifiedStays(s, step, id);
    hide Inv;
  }

  lemma {:induction false} FastPathRun(ss: seq<State>, n: nat, k: nat, t: Thread, i: nat, id: EntryId, sig: Signature)
    requires Run(ss) && n <= k < |ss| && OnFastPath(ss[n], t, i, id, sig)
    requires forall j :: n <= j <= k ==> i < |Stack(ss[j], t)|
    ensures OnFastPath(ss[k], t, i, id, sig) && ss[k].entries[id] == ss[n].entries[id]
    decreases k
  {
    hide OnFastPath, Inv, Apply;
    if n < k {
      FastPathRun(ss, n, k - 1, t, i, id, sig);
      RunKeeps(ss, k - 1);
      var step := StepOf(ss, k - 1);
      FastPathStays(ss[k - 1], step, t, i, id, sig);
    }
  }

  /** A call that begins when a notified entry is cached for its signature uses this entry and never compiles
      or waits, whatever other threads do and even if the entry is evicted. When it is its turn, its first
      step makes it ready, and the second takes the fast path exactly if the entry is not marked for the
      fall-back. */
  lemma CachedCall(ss: seq<State>, n: nat, k: nat, t: Thread, sig: Signature, newId: EntryId)
    requires Run(ss) && n < k < |ss| && Apply(ss[n], Begin(t, sig, newId)) == Some(ss[n + 1])
    requires sig in ss[n].cache && ss[n].cache[sig] in ss[n].entries && ss[n].entries[ss[n].cache[sig]].notified
    requires forall j :: n < j <= k ==> |Stack(ss[n], t)| < |Stack(ss[j], t)|
    ensures ss[n + 1].entries == ss[n].entries && ss[n + 1].cache == ss[n].cache
    ensures var i, id := |Stack(ss[n], t)|, ss[n].cache[sig];
            && OnFastPath(ss[k], t, i, id, sig) && ss[k].entries[id] == ss[n].entries[id]
            && (i + 1 == |Stack(ss[k], t)| ==>
                  && (Top(ss[k], t).at == LookedUp(false) ==> Apply(ss[k], Test(t)) == Some(WithTop(ss[k], t, Ready)))
                  && (Top(ss[k], t).at == Ready ==>
                        Apply(ss[k], Choose(t))
                        == Some(WithTop(ss[k], t, if ss[n].entries[id].fallBackToPython then Python else Executing))))
  {
    var i, id := |Stack(ss[n], t)|, ss[n].cache[sig];
    assert OnFastPath(ss[n + 1], t, i, id, sig);
    FastPathRun(ss, n + 1, k, t, i, id, sig);
  }

  // ---------- entries without a fast path ----------

  lemma FallBackStays(s: State, step: Step, id: EntryId)
    requires Inv(s) && Apply(s, step).Some? && id in s.entries && s.entries[id].fallBackToPython
    ensures id in Apply(s, step).value.entries && Apply(s, step).value.entries[id].fallBackToPython
  {
    NotifiedStays(s, step, id);
    hide Inv;
  }

  lemma {:induction false} FallBackForever(ss: seq<State>, n: nat, k: nat, id: EntryId)
    requires Run(ss) && n <= k < |ss| && id in ss[n].entries && ss[n].entries[id].fallBackToPython
    ensures id in ss[k].entries && ss[k].entries[id].fallBackToPython
    decreases k
  {
    hide Inv, Apply, Run;
    if n < k {
      FallBackForever(ss, n, k - 1, id);
      RunKeeps(ss, k - 1);
      var step := StepOf(ss, k - 1);
      FallBackStays(ss[k - 1], step, id);
    }
  }

  /** When the creating call has got no data for the fast path, or has failed, no call of any thread ever takes
      the fast path with its entry. */
  lemma NeverFast(ss: seq<State>, n: nat, k: nat, creator: Thread, step: Step, t: Thread, i: nat)
    requires Run(ss) && n < k < |ss| && Apply(ss[n], step) == Some(ss[n + 1])
    requires step == MissReturns(creator, false) || step == Throws(creator)
    requires i < |Stack(ss[k], t)| && Stack(ss[n], creator) != []
    requires Stack(ss[k], t)[i].entry == Top(ss[n], creator).entry
    ensures Stack(ss[k], t)[i].at != Executing
  {
    var id := Top(ss[n], creator).entry;
    assert id in ss[n + 1].entries && ss[n + 1].entries[id].fallBackToPython;
    FallBackForever(ss, n + 1, k, id);
    CallsSafe(ss, k, t, i);
  }
}
