// What a failed insertion leaves behind: an entry of the table of contexts, or of a thread's
// cache, that leads to freed memory.
module Strays {
  import opened Basics
  import opened Contexts
  import Cuckoo

  // The table leads to a context that is not allocated.
  ghost predicate StrayEntry(s: State, bt: nat) { bt in s.table && s.table[bt] !in s.ctxs }

  // The cache leads to a counter that is on no list: it was freed.
  ghost predicate StrayCounter(s: State, t: nat, bt: nat)
  {
    && t < |s.threads| && bt in s.threads[t].cache
    && var c := s.threads[t].cache[bt].ctx;
       c !in s.ctxs || t !in s.ctxs[c].cnts
  }

  lemma NoStrays(s: State)
    requires Refs(s)
    ensures forall bt: nat :: !StrayEntry(s, bt)
    ensures forall t: nat, bt: nat :: !StrayCounter(s, t, bt)
  {
    hide CtxOk;
    forall t: nat, bt: nat ensures !StrayCounter(s, t, bt)
    {
      if t < |s.threads| { assert ThreadOk(s, t); }
    }
  }

  // The insertion of a context that drops another entry.
  lemma EntryLeft(s: State, t: nat, bt: nat, address: nat, lost: nat)
    requires Refs(s) && CanInsertFail(s, t, bt, address, lost) && lost != bt
    ensures var s' := DoInsertFails(s, bt, address, lost);
            && StrayEntry(s', bt) && !Refs(s')
            // the next search for it goes through the freed context
            && (forall u: nat, a: nat :: CanSearch(s', u, bt, a) ==>
                 Touched(s', Search(u, bt, a)) == Some(address) && address !in s'.ctxs)
            // and the context that was dropped is still there, but no longer found
            && lost !in s'.table && s.table[lost] in s'.ctxs && !Live(s', s.table[lost])
  {
    hide ThreadOk, CtxOk;
    var s' := DoInsertFails(s, bt, address, lost);
    assert StrayEntry(s', bt);
    if Refs(s') { NoStrays(s'); }
  }

  // The insertion of a counter that drops another one.
  lemma CounterLeft(s: State, t: nat, lost: nat)
    requires Refs(s) && CanCacheFail(s, t, lost) && lost != s.threads[t].look.value.bt
    ensures s.threads[t].look.value.ctx in s.ctxs
    ensures var s', bt := DoCacheFails(s, t, lost), s.threads[t].look.value.bt;
            && StrayCounter(s', t, bt) && !Refs(s')
            // the thread may count with the freed counter
            && (forall obj: nat, size: nat :: obj !in s'.objects ==> Enabled(s', Sample(t, bt, obj, size)))
            // and the counter that was dropped is on the list of its context, but no longer found
            && var c := s.threads[t].cache[lost].ctx;
               c in s'.ctxs && t in s'.ctxs[c].cnts && lost !in s'.threads[t].cache && s'.ctxs[c].bt == lost
  {
    hide CtxOk;
    assert ThreadOk(s, t);
    var s', l := DoCacheFails(s, t, lost), s.threads[t].look.value;
    NotCounted(s, t);
    assert StrayCounter(s', t, l.bt);
    if Refs(s') { NoStrays(s'); }
  }

  // A thread that is about to link a counter has none for that context.
  lemma NotCounted(s: State, t: nat)
    requires Refs(s) && t < |s.threads| && s.threads[t].look.Some? && ThreadOk(s, t)
    ensures s.threads[t].look.value.ctx in s.ctxs && t !in s.ctxs[s.threads[t].look.value.ctx].cnts
  {
    var c := s.threads[t].look.value.ctx;
    assert CtxOk(s, c);
  }

  // A step keeps the invariant exactly if it is no failed insertion that keeps the new entry.
  lemma LossIff(s: State, step: Step, accum: bool)
    requires Inv(s) && Enabled(s, step)
    ensures Touched(s, step).Some? ==> Touched(s, step).value in s.ctxs
    ensures Inv(Apply(s, step, accum)) <==> !Loses(s, step)
  {
    hide Refs, Limbo, Balance, StrayEntry, StrayCounter;
    StepTouches(s, step);
    if Loses(s, step) {
      match step
      case InsertFails(t, bt, address, lost) => EntryLeft(s, t, bt, address, lost);
      case CacheFails(t, lost) => CounterLeft(s, t, lost);
      case _ =>
    } else {
      StepSafe(s, step, accum);
    }
  }

  // So the invariant holds along a run exactly as long as there is no such step.
  lemma RunIff(states: seq<State>, steps: seq<Step>, accum: bool, n: nat)
    requires Run(states, steps, accum) && n <= |steps|
    ensures Steady(states, steps, n) <==> forall i :: 0 <= i <= n ==> Inv(states[i])
  {
    hide Inv, Enabled, Apply, Touched, Loses, Fresh;
    if Steady(states, steps, n) {
      forall i | 0 <= i <= n ensures Inv(states[i]) { RunSafe(states, steps, accum, i); }
    }
    if forall i :: 0 <= i <= n ==> Inv(states[i]) {
      forall i | 0 <= i < n ensures !Loses(states[i], steps[i])
      {
        assert Next(states[i], steps[i], states[i + 1], accum);
        LossIff(states[i], steps[i], accum);
      }
    }
  }

  // ------------------------------------------------- which outcome the insertion itself has

  // A full bucket holds as many items as a bucket has cells.
  lemma FullHolds(tab: seq<Cuckoo.Cell>, m: map<int, int>, b: nat)
    requires Cuckoo.Stores(tab, m) && Cuckoo.FullBucket(tab, b)
    ensures |m| >= Cuckoo.CELLS
  {
    Cuckoo.CountsCells(tab, m);
    var i := Cuckoo.CELLS * b;
    assert {i, i + 1, i + 2, i + 3} <= Cuckoo.Used(tab);
    Cuckoo.Smaller({i, i + 1, i + 2, i + 3}, Cuckoo.Used(tab));
  }

  // prof_lookup_global with the table of contexts as a cuckoo table. With room in one of the two
  // buckets of the new entry, or memory to grow, it is a search; else it may be a loss.
  method InsertContext(table: Cuckoo.Table, ghost s: State, t: nat, bt: nat, address: nat, steps: nat,
      grants: nat -> bool)
      returns (r: Cuckoo.Outcome, ghost step: Step)
    requires table.Valid() && table.m == s.table && CanSearch(s, t, bt, address) && bt !in s.table
    modifies table
    ensures r == Cuckoo.Done ==> step == Search(t, bt, address) && table.m == DoSearch(s, t, bt, address).table
    ensures r == Cuckoo.Failed ==>
              step.InsertFails? && step == InsertFails(t, bt, address, step.lost) && Enabled(s, step)
              && table.m == DoInsertFails(s, bt, address, step.lost).table
    ensures r == Cuckoo.Failed && table.lgCur == old(table.lgCur) ==> Loses(s, step)
    ensures Cuckoo.HasRoom(old(table.tab), bt, Power(old(table.lgCur)), table.hash) ==> r == Cuckoo.Done
    // It fails for want of memory only.
    ensures r == Cuckoo.Failed ==>
              Cuckoo.NoMemory(old(table.m)[bt := address], old(table.lgCur), grants, table.lgMax, table.hash)
  {
    hide Cuckoo.Stores, Cuckoo.Housed, Cuckoo.HasRoom, Cuckoo.Lacks, Cuckoo.Stuck, Cuckoo.NoWay, Cuckoo.Jams,
         Cuckoo.NoMemory, Cuckoo.Useless, Cuckoo.Refused, Cuckoo.Table.Valid, Power;
    ghost var lost, data;
    TableFull(table, bt);
    r, lost, data := table.Insert(bt, address, steps, grants);
    step := Search(t, bt, address);
    if r == Cuckoo.Failed {
      Cuckoo.LacksIs(table.m, s.table[bt := address], lost, data);
      assert lost == bt || lost in s.table;
      step := InsertFails(t, bt, address, lost);
    }
  }

  lemma FullUnlessRoom(tab: seq<Cuckoo.Cell>, m: map<int, int>, k: int, n: nat, hash: int -> (nat, nat))
    requires Cuckoo.Stores(tab, m) && n > 0
    ensures Cuckoo.HasRoom(tab, k, n, hash) || |m| >= Cuckoo.CELLS
  {
    if !Cuckoo.HasRoom(tab, k, n, hash) { FullHolds(tab, m, hash(k).0 % n); }
  }

  lemma TableFull(table: Cuckoo.Table, k: int)
    requires table.Valid()
    ensures Cuckoo.HasRoom(table.tab, k, Power(table.lgCur), table.hash) || |table.m| >= Cuckoo.CELLS
  {
    hide Cuckoo.HasRoom, Cuckoo.Stores;
    FullUnlessRoom(table.tab, table.m, k, Power(table.lgCur), table.hash);
  }

  // The end of prof_lookup, with the thread's cache as a cuckoo table of counter addresses.
  method InsertCounter(cache: Cuckoo.Table, ghost s: State, t: nat, bt: nat, counter: int, steps: nat,
      grants: nat -> bool)
      returns (r: Cuckoo.Outcome, ghost step: Step)
    requires cache.Valid() && Inv(s) && CanGiveUp(s, t) && bt == s.threads[t].look.value.bt
    requires cache.m.Keys == s.threads[t].cache.Keys
    modifies cache
    ensures s.threads[t].look.value.ctx in s.ctxs
    ensures r == Cuckoo.Done ==> step == Link(t) && cache.m.Keys == DoLink(s, t).threads[t].cache.Keys
    ensures r == Cuckoo.Failed ==>
              step.CacheFails? && step == CacheFails(t, step.lost) && Enabled(s, step)
              && cache.m.Keys == DoCacheFails(s, t, step.lost).threads[t].cache.Keys
    ensures r == Cuckoo.Failed && cache.lgCur == old(cache.lgCur) ==> Loses(s, step)
    ensures Cuckoo.HasRoom(old(cache.tab), bt, Power(old(cache.lgCur)), cache.hash) ==> r == Cuckoo.Done
    // It fails for want of memory only.
    ensures r == Cuckoo.Failed ==>
              Cuckoo.NoMemory(old(cache.m)[bt := counter], old(cache.lgCur), grants, cache.lgMax, cache.hash)
  {
    hide Cuckoo.Stores, Cuckoo.Housed, Cuckoo.HasRoom, Cuckoo.Lacks, Cuckoo.Stuck, Cuckoo.NoWay, Cuckoo.Jams,
         Cuckoo.NoMemory, Cuckoo.Useless, Cuckoo.Refused, Cuckoo.Table.Valid, Power, Inv, DoLink, DoCacheFails;
    hide CanCacheFail, CanGiveUp, Enabled, Loses;
    LookingFor(s, t);
    ghost var lost, data;
    TableFull(cache, bt);
    SameSize(cache.m, s.threads[t].cache);
    LinkKeys(s, t);
    ghost var was := cache.m;
    r, lost, data := cache.Insert(bt, counter, steps, grants);
    step := Link(t);
    if r == Cuckoo.Failed {
      CounterLost(s, t, cache.m, was, bt, counter, lost, data);
      step := CacheFails(t, lost);
    }
  }

  lemma CounterLost(s: State, t: nat, m: map<int, int>, was: map<int, int>, bt: nat, counter: int, lost: int,
      data: int)
    requires CanGiveUp(s, t) && s.threads[t].look.value.ctx in s.ctxs && bt == s.threads[t].look.value.bt
    requires bt !in s.threads[t].cache && was.Keys == s.threads[t].cache.Keys
    requires Cuckoo.Lacks(m, was[bt := counter], lost, data) && (lost == bt || |s.threads[t].cache| >= Cuckoo.CELLS)
    ensures lost >= 0 && Enabled(s, CacheFails(t, lost)) && (lost != bt ==> Loses(s, CacheFails(t, lost)))
    ensures m.Keys == DoCacheFails(s, t, lost).threads[t].cache.Keys
  {
    hide CanCacheFail, DoCacheFails;
    Cuckoo.LacksIs(m, was[bt := counter], lost, data);
    assert was[bt := counter].Keys == was.Keys + {bt};
    assert lost in was[bt := counter].Keys;
    CacheFailsKeys(s, t, lost);
    assert m.Keys == was.Keys + {bt} - {lost};
  }

  lemma LinkKeys(s: State, t: nat)
    requires CanGiveUp(s, t) && s.threads[t].look.value.ctx in s.ctxs
    ensures DoLink(s, t).threads[t].cache.Keys == s.threads[t].cache.Keys + {s.threads[t].look.value.bt}
  { }

  lemma CacheFailsKeys(s: State, t: nat, lost: nat)
    requires CanGiveUp(s, t) && s.threads[t].look.value.ctx in s.ctxs
    requires s.threads[t].look.value.bt !in s.threads[t].cache
    requires lost == s.threads[t].look.value.bt || (lost in s.threads[t].cache && |s.threads[t].cache| >= Cuckoo.CELLS)
    ensures CanCacheFail(s, t, lost)
    ensures DoCacheFails(s, t, lost).threads[t].cache.Keys ==
            s.threads[t].cache.Keys + {s.threads[t].look.value.bt} - {lost}
  { }

  lemma LookingFor(s: State, t: nat)
    requires Inv(s) && CanGiveUp(s, t)
    ensures t < |s.threads| && s.threads[t].look.Some?
    ensures s.threads[t].look.value.ctx in s.ctxs && s.threads[t].look.value.bt !in s.threads[t].cache
  {
    assert ThreadOk(s, t);
  }

  lemma SameSize(m: map<int, int>, cache: map<nat, Counter>)
    requires m.Keys == cache.Keys
    ensures |m| == |cache|
  {
    assert |m| == |m.Keys| && |cache| == |cache.Keys|;
  }

  // ------------------------------------------------------------------ runs that do go wrong

  // One thread has looked k backtraces up and counts for each of them.
  function Ctxs(k: nat): map<nat, Ctx> { if k == 0 then map[] else Ctxs(k - 1)[99 + k := Ctx(k - 1, 0, ZERO, {0}, 0)] }

  function Table(k: nat): map<nat, nat> { if k == 0 then map[] else Table(k - 1)[k - 1 := 99 + k] }

  function Cache(k: nat): map<nat, Counter> { if k == 0 then map[] else Cache(k - 1)[k - 1 := Counter(99 + k, ZERO)] }

  function Only(ctxs: map<nat, Ctx>, table: map<nat, nat>, th: Thread): State
  {
    State(ctxs, table, [th], map[], None, {})
  }

  function Filled(k: nat): State { Only(Ctxs(k), Table(k), Thread(Cache(k), None, None, None, None)) }

  function Found(k: nat): State
  {
    Only(Ctxs(k)[100 + k := Ctx(k, 1, ZERO, {}, 0)], Table(k)[k := 100 + k],
         Thread(Cache(k), Some(Lookup(k, 100 + k, true)), None, None, None))
  }

  function FillSteps(k: nat): seq<Step>
  {
    if k == 0 then [] else FillSteps(k - 1) + [Search(0, k - 1, 99 + k), Link(0)]
  }

  lemma {:induction false} TableKeys(k: nat)
    ensures |Table(k)| == k && forall b: nat :: b in Table(k) <==> b < k
  {
    if k > 0 { TableKeys(k - 1); }
  }

  lemma {:induction false} CacheKeys(k: nat)
    ensures |Cache(k)| == k && forall b: nat :: b in Cache(k) <==> b < k
  {
    if k > 0 { CacheKeys(k - 1); }
  }

  lemma {:induction false} CtxsKeys(k: nat)
    ensures forall c: nat :: c in Ctxs(k) <==> 100 <= c < 100 + k
  {
    if k > 0 { CtxsKeys(k - 1); }
  }

  lemma FilledKeys(k: nat)
    ensures forall b: nat :: b in Table(k) <==> b < k
    ensures forall b: nat :: b in Cache(k) <==> b < k
    ensures forall c: nat :: c in Ctxs(k) <==> 100 <= c < 100 + k
    ensures |Table(k)| == |Cache(k)| == k
  {
    hide Table, Cache, Ctxs;
    TableKeys(k);
    CacheKeys(k);
    CtxsKeys(k);
  }

  lemma FillSearch(k: nat, accum: bool)
    ensures Next(Filled(k), Search(0, k, 100 + k), Found(k), accum)
  {
    hide Ctxs, Table, Cache;
    FilledKeys(k);
    assert Filled(k).threads[0 := Found(k).threads[0]] == Found(k).threads;
  }

  lemma FillLink(k: nat, accum: bool)
    ensures Next(Found(k), Link(0), Filled(k + 1), accum)
  {
    var none: set<nat> := {};
    assert none + {0} == {0};
    assert Found(k).threads[0 := Filled(k + 1).threads[0]] == Filled(k + 1).threads;
    assert Found(k).ctxs[100 + k := Ctx(k, 0, ZERO, {0}, 0)] == Ctxs(k + 1);
  }

  // A run and one step more.
  lemma RunMore(states: seq<State>, steps: seq<Step>, accum: bool, step: Step, s: State)
    requires Run(states, steps, accum) && Next(states[|steps|], step, s, accum)
    ensures Run(states + [s], steps + [step], accum)
  {
    hide Next;
  }

  lemma {:induction false} FillRun(k: nat, accum: bool) returns (states: seq<State>)
    ensures Run(states, FillSteps(k), accum) && |FillSteps(k)| == 2 * k && states[2 * k] == Filled(k)
  {
    hide Next;
    if k == 0 {
      states := [Filled(0)];
    } else {
      states := FillRun(k - 1, accum);
      FillSearch(k - 1, accum);
      RunMore(states, FillSteps(k - 1), accum, Search(0, k - 1, 99 + k), Found(k - 1));
      states := states + [Found(k - 1)];
      FillLink(k - 1, accum);
      var steps := FillSteps(k - 1) + [Search(0, k - 1, 99 + k)];
      RunMore(states, steps, accum, Link(0), Filled(k));
      states := states + [Filled(k)];
      assert steps + [Link(0)] == FillSteps(k);
    }
  }

  // With four contexts in the table a fifth takes the place of the first and is freed; the
  // next search for its backtrace goes through the freed context.
  lemma FreedContextFound(accum: bool) returns (states: seq<State>, steps: seq<Step>)
    ensures Run(states, steps, accum) && |steps| == 10 && steps[8] == InsertFails(0, 4, 104, 0)
    ensures steps[9] == Search(0, 4, 105)
    ensures Touched(states[9], steps[9]) == Some(104) && 104 !in states[9].ctxs
  {
    hide Next, Ctxs, Table, Cache;
    states := FillRun(4, accum);
    FilledKeys(4);
    var s := DoInsertFails(Filled(4), 4, 104, 0);
    InsertLosing(accum);
    RunMore(states, FillSteps(4), accum, InsertFails(0, 4, 104, 0), s);
    states, steps := states + [s], FillSteps(4) + [InsertFails(0, 4, 104, 0)];
    SearchStray(s, accum);
    RunMore(states, steps, accum, Search(0, 4, 105), s);
    states, steps := states + [s], steps + [Search(0, 4, 105)];
  }

  lemma InsertLosing(accum: bool)
    ensures var s := DoInsertFails(Filled(4), 4, 104, 0);
            Next(Filled(4), InsertFails(0, 4, 104, 0), s, accum)
            && s.ctxs == Ctxs(4) && 4 in s.table && s.table[4] == 104 && s.threads == Filled(4).threads
            && s.prepping.None?
  {
    hide Ctxs, Table, Cache;
    FilledKeys(4);
  }

  // After that anything may happen.
  lemma SearchStray(s: State, accum: bool)
    requires s.ctxs == Ctxs(4) && 4 in s.table && s.table[4] == 104 && s.threads == Filled(4).threads
    requires s.prepping.None?
    ensures Touched(s, Search(0, 4, 105)) == Some(104) && 104 !in s.ctxs
    ensures forall s': State :: Next(s, Search(0, 4, 105), s', accum)
  {
    hide Ctxs, Table, Cache;
    FilledKeys(4);
  }

  // A thread whose cache lost its first counter to that of a fifth context.
  function Astray(ctxs: map<nat, Ctx>, table: map<nat, nat>, doom: Option<nat>, gone: Option<nat>): State
  {
    Only(ctxs, table, Thread(Cache(4)[4 := Counter(104, ZERO)] - {0}, None, doom, gone, None))
  }

  // With four counters in its cache a thread loses the first and keeps the fifth, which is
  // freed; so is the new context. The thread then counts an object with the freed counter.
  lemma FreedCounterUsed(accum: bool) returns (states: seq<State>, steps: seq<Step>)
    ensures Run(states, steps, accum) && |steps| == 13 && steps[9] == CacheFails(0, 0)
    ensures steps[12] == Sample(0, 4, 9, 16)
    ensures StrayCounter(states[12], 0, 4) && 104 !in states[12].ctxs
  {
    hide Run, Next, Ctxs, Table, Cache, StrayCounter, Astray, Found, Filled, FillSteps, DoSample;
    states := FillRun(4, accum);
    steps := FillSteps(4);
    RunLength(states, steps, accum);
    FillSearch(4, accum);
    states, steps := Further(states, steps, accum, Search(0, 4, 104), Found(4));
    CacheLosing(accum);
    states, steps :=
        Further(states, steps, accum, CacheFails(0, 0), Astray(Found(4).ctxs, Found(4).table, Some(104), None));
    NewDestroyed(accum);
    states, steps := Further(states, steps, accum, Destroy(0), Astray(Found(4).ctxs, Table(4), None, Some(104)));
    NewReleased(accum);
    var s := Astray(Ctxs(4), Table(4), None, None);
    states, steps := Further(states, steps, accum, Release(0), s);
    StraySampled(accum);
    states, steps := Further(states, steps, accum, Sample(0, 4, 9, 16), StrayNext(accum));
  }

  function StrayNext(accum: bool): State
  {
    CacheKeys(4);
    DoSample(Astray(Ctxs(4), Table(4), None, None), 0, 4, 9, 16, accum)
  }

  lemma RunLength(states: seq<State>, steps: seq<Step>, accum: bool)
    requires Run(states, steps, accum)
    ensures |states| == |steps| + 1
  { }

  lemma Further(states: seq<State>, steps: seq<Step>, accum: bool, step: Step, s: State)
      returns (states': seq<State>, steps': seq<Step>)
    requires Run(states, steps, accum) && |states| == |steps| + 1 && Next(states[|steps|], step, s, accum)
    ensures Run(states', steps', accum) && states' == states + [s] && steps' == steps + [step]
  {
    hide Run, Next;
    RunMore(states, steps, accum, step, s);
    states', steps' := states + [s], steps + [step];
  }

  lemma CacheLosing(accum: bool)
    ensures Next(Found(4), CacheFails(0, 0), Astray(Found(4).ctxs, Found(4).table, Some(104), None), accum)
  {
    hide Ctxs, Table, Cache;
    FilledKeys(4);
    var f := Found(4);
    assert DoCacheFails(f, 0, 0).threads == Astray(f.ctxs, f.table, Some(104), None).threads;
  }

  lemma NewDestroyed(accum: bool)
    ensures Next(Astray(Found(4).ctxs, Found(4).table, Some(104), None), Destroy(0),
              Astray(Found(4).ctxs, Table(4), None, Some(104)), accum)
  {
    hide Ctxs, Table, Cache;
    FilledKeys(4);
    var s := Astray(Found(4).ctxs, Found(4).table, Some(104), None);
    assert Found(4).table - {4} == Table(4);
    assert DoDestroy(s, 0).threads == Astray(Found(4).ctxs, Table(4), None, Some(104)).threads;
  }

  lemma NewReleased(accum: bool)
    ensures Next(Astray(Found(4).ctxs, Table(4), None, Some(104)), Release(0), Astray(Ctxs(4), Table(4), None, None),
              accum)
  {
    hide Ctxs, Table, Cache;
    FilledKeys(4);
    var s := Astray(Found(4).ctxs, Table(4), None, Some(104));
    assert Found(4).ctxs - {104} == Ctxs(4);
    assert DoRelease(s, 0).threads == Astray(Ctxs(4), Table(4), None, None).threads;
  }

  lemma StraySampled(accum: bool)
    ensures var s := Astray(Ctxs(4), Table(4), None, None);
            Next(s, Sample(0, 4, 9, 16), StrayNext(accum), accum) && StrayCounter(s, 0, 4) && 104 !in s.ctxs
  {
    hide Ctxs, Table, Cache, DoSample;
    FilledKeys(4);
  }
}
