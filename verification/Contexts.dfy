// The life of profile contexts: which lock-protected sections may run when, over any
// number of threads, and why no thread ever touches a freed context.
module Contexts {
  import opened Basics
  import Cuckoo

  // Counters of live sampled objects, and of all samples if those are accumulated.
  datatype Count = Count(curobjs: int, curbytes: int, accumobjs: int, accumbytes: int)

  const ZERO := Count(0, 0, 0, 0)

  function Add(x: Count, y: Count): Count
  {
    Count(x.curobjs + y.curobjs, x.curbytes + y.curbytes, x.accumobjs + y.accumobjs, x.accumbytes + y.accumbytes)
  }

  // prof_thr_cnt_t: the counter of one thread for one context.
  datatype Counter = Counter(ctx: nat, cnts: Count)

  // prof_ctx_t; cnts holds the threads whose counter is on the context's list. lost is not in
  // the source: it counts the increments of nlimbo that no thread will take back.
  datatype Ctx = Ctx(bt: nat, nlimbo: int, merged: Count, cnts: set<nat>, lost: nat)

  datatype Lookup = Lookup(bt: nat, ctx: nat, isNew: bool)

  // cache: counters by backtrace. look: a context found in the global table and not linked yet.
  // doom: a context this thread is about to try to destroy. gone: one it took out of the
  // table and will release. freeing: a sampled object this thread is releasing.
  datatype Thread = Thread(cache: map<nat, Counter>, look: Option<Lookup>, doom: Option<nat>, gone: Option<nat>,
      freeing: Option<nat>)

  datatype Object = Object(ctx: nat, size: nat)

  // ctxs: allocated contexts by address. table: bt2ctx. prepping: the dumping thread that holds
  // the table's lock. dumped: contexts on the list of the dump in progress.
  datatype State = State(ctxs: map<nat, Ctx>, table: map<nat, nat>, threads: seq<Thread>, objects: map<nat, Object>,
                         prepping: Option<nat>, dumped: set<nat>)

  // ------------------------------------------------------------------------------ steps

  // One step is one section under the locks the source takes, or one access outside of them.
  datatype Step =
    | Search(t: nat, bt: nat, address: nat)    // prof_lookup_global
    | InsertFails(t: nat, bt: nat, address: nat, lost: nat) // prof_lookup_global, out of memory
    | Link(t: nat)                           // the end of prof_lookup
    | GiveUp(t: nat)                         // prof_lookup, out of memory for a counter
    | CacheFails(t: nat, lost: nat)          // prof_lookup, out of memory for its place
    | Merge(t: nat, bt: nat)                 // prof_ctx_merge
    | Destroy(t: nat)                        // prof_ctx_destroy, under its locks
    | Release(t: nat)                        // prof_ctx_destroy, after them
    | Sample(t: nat, bt: nat, obj: nat, size: nat) // prof_malloc
    | BeginFree(t: nat, obj: nat)            // prof_free, up to its lookup
    | EndFree(t: nat)                        // prof_free with a counter
    | FallBack(t: nat)                       // prof_free without one
    | DumpEnter(t: nat)
    | DumpPrep(t: nat, ctx: nat)             // prof_dump_ctx_prep
    | DumpLeave(t: nat)
    | DumpDone(ctx: nat)                     // prof_dump_ctx_cleanup

  ghost predicate Unlocked(s: State) { s.prepping.None? }

  function With(s: State, t: nat, th: Thread): State
    requires t < |s.threads|
  {
    s.(threads := s.threads[t := th])
  }

  function WithCtx(s: State, c: nat, x: Ctx): State { s.(ctxs := s.ctxs[c := x]) }

  // The context a step works on through a pointer, if it does.
  function Touched(s: State, step: Step): Option<nat>
  {
    match step
    case Search(t, bt, _) => if bt in s.table then Some(s.table[bt]) else None
    case Link(t) => if t < |s.threads| && s.threads[t].look.Some? then Some(s.threads[t].look.value.ctx) else None
    case GiveUp(t) => if t < |s.threads| && s.threads[t].look.Some? then Some(s.threads[t].look.value.ctx) else None
    case CacheFails(t, _) => if t < |s.threads| && s.threads[t].look.Some? then Some(s.threads[t].look.value.ctx)
        else None
    case Merge(t, bt) => if t < |s.threads| && bt in s.threads[t].cache then Some(s.threads[t].cache[bt].ctx) else None
    case Destroy(t) => if t < |s.threads| then s.threads[t].doom else None
    case Release(t) => if t < |s.threads| then s.threads[t].gone else None
    case BeginFree(t, obj) => if obj in s.objects then Some(s.objects[obj].ctx) else None
    case FallBack(t) =>
      if t < |s.threads| && s.threads[t].freeing.Some? && s.threads[t].freeing.value in s.objects
      then Some(s.objects[s.threads[t].freeing.value].ctx) else None
    case DumpPrep(_, c) => Some(c)
    case DumpDone(c) => Some(c)
    case _ => None
  }

  ghost predicate CanSearch(s: State, t: nat, bt: nat, address: nat)
  {
    t < |s.threads| && Unlocked(s) && bt !in s.threads[t].cache && s.threads[t].look.None? && address !in s.ctxs
  }

  // A context that is known is kept by the increment; a new one starts with it.
  function DoSearch(s: State, t: nat, bt: nat, address: nat): State
    requires t < |s.threads| && (bt in s.table ==> s.table[bt] in s.ctxs)
  {
    var th := s.threads[t];
    if bt in s.table then
      var c := s.table[bt];
      var x := s.ctxs[c];
      WithCtx(With(s, t, th.(look := Some(Lookup(bt, c, false)))), c, x.(nlimbo := x.nlimbo + 1))
    else
      var s' := WithCtx(With(s, t, th.(look := Some(Lookup(bt, address, true)))), address, Ctx(bt, 1, ZERO, {}, 0));
      s'.(table := s.table[bt := address])
  }

  // The insertion into the table of contexts fails. A cuckoo table then lacks one entry, the
  // new one or, if a bucket was full, one that was there. If it is the new one, this stands
  // for being out of memory before the insertion too.
  ghost predicate CanInsertFail(s: State, t: nat, bt: nat, address: nat, lost: nat)
  {
    && CanSearch(s, t, bt, address) && bt !in s.table
    && (lost == bt || (lost in s.table && |s.table| >= Cuckoo.CELLS))
  }

  // The new context is freed, whatever the table now leads to.
  function DoInsertFails(s: State, bt: nat, address: nat, lost: nat): State
  {
    s.(table := s.table[bt := address] - {lost})
  }

  ghost predicate CanLink(s: State, t: nat) { t < |s.threads| && s.threads[t].look.Some? }

  function DoLink(s: State, t: nat): State
    requires t < |s.threads| && s.threads[t].look.Some? && s.threads[t].look.value.ctx in s.ctxs
  {
    var th := s.threads[t];
    var l := th.look.value;
    var x := s.ctxs[l.ctx];
    WithCtx(With(s, t, th.(look := None, cache := th.cache[l.bt := Counter(l.ctx, ZERO)])),
            l.ctx, x.(cnts := x.cnts + {t}, nlimbo := x.nlimbo - 1))
  }

  ghost predicate CanGiveUp(s: State, t: nat)
  {
    t < |s.threads| && s.threads[t].look.Some? && s.threads[t].doom.None?
  }

  // Out of memory after the search: only a new context is handed to prof_ctx_destroy, and the
  // increment of a known one is never taken back.
  function DoGiveUp(s: State, t: nat): State
    requires t < |s.threads| && s.threads[t].look.Some? && s.threads[t].look.value.ctx in s.ctxs
  {
    var th := s.threads[t];
    var l := th.look.value;
    if l.isNew then With(s, t, th.(look := None, doom := Some(l.ctx)))
    else WithCtx(With(s, t, th.(look := None)), l.ctx, s.ctxs[l.ctx].(lost := s.ctxs[l.ctx].lost + 1))
  }

  // The insertion into the thread's cache fails, which lacks one entry then.
  ghost predicate CanCacheFail(s: State, t: nat, lost: nat)
  {
    && CanGiveUp(s, t)
    && (lost == s.threads[t].look.value.bt || (lost in s.threads[t].cache && |s.threads[t].cache| >= Cuckoo.CELLS))
  }

  // The new counter is freed, whatever the cache now leads to; it never was on the context's
  // list. A counter that was dropped stays on the list of its context.
  function DoCacheFails(s: State, t: nat, lost: nat): State
    requires t < |s.threads| && s.threads[t].look.Some? && s.threads[t].look.value.ctx in s.ctxs
  {
    var l := s.threads[t].look.value;
    var s' := DoGiveUp(s, t);
    if lost == l.bt then s'
    else With(s', t, s'.threads[t].(cache := s.threads[t].cache[l.bt := Counter(l.ctx, ZERO)] - {lost}))
  }

  ghost predicate CanMerge(s: State, t: nat, bt: nat)
  {
    t < |s.threads| && bt in s.threads[t].cache && s.threads[t].doom.None?
  }

  function DoMerge(s: State, t: nat, bt: nat, accum: bool): State
    requires t < |s.threads| && bt in s.threads[t].cache && s.threads[t].cache[bt].ctx in s.ctxs
  {
    var th := s.threads[t];
    var k := th.cache[bt];
    var x := s.ctxs[k.ctx];
    var y := x.(merged := Add(x.merged, k.cnts), cnts := x.cnts - {t});
    var destroy := !accum && y.cnts == {} && y.merged.curobjs == 0 && y.nlimbo == 0;
    var th' := th.(cache := th.cache - {bt}, doom := if destroy then Some(k.ctx) else None);
    WithCtx(With(s, t, th'), k.ctx, if destroy then y.(nlimbo := y.nlimbo + 1) else y)
  }

  ghost predicate CanDestroy(s: State, t: nat)
  {
    t < |s.threads| && Unlocked(s) && s.threads[t].doom.Some? && s.threads[t].gone.None?
  }

  predicate Unused(x: Ctx) { x.cnts == {} && x.merged.curobjs == 0 && x.nlimbo == 1 }

  function DoDestroy(s: State, t: nat): State
    requires t < |s.threads| && s.threads[t].doom.Some? && s.threads[t].doom.value in s.ctxs
  {
    var th := s.threads[t];
    var c := th.doom.value;
    var x := s.ctxs[c];
    if Unused(x) then
      With(s, t, th.(doom := None, gone := Some(c))).(table := s.table - {x.bt})
    else
      WithCtx(With(s, t, th.(doom := None)), c, x.(nlimbo := x.nlimbo - 1))
  }

  ghost predicate CanRelease(s: State, t: nat) { t < |s.threads| && s.threads[t].gone.Some? }

  function DoRelease(s: State, t: nat): State
    requires t < |s.threads| && s.threads[t].gone.Some?
  {
    With(s, t, s.threads[t].(gone := None)).(ctxs := s.ctxs - {s.threads[t].gone.value})
  }

  // What prof_malloc and prof_free do to a counter.
  function Sampled(x: Count, size: nat, accum: bool): Count
  {
    Add(x, if accum then Count(1, size, 1, size) else Count(1, size, 0, 0))
  }

  function Freed(x: Count, size: int): Count { Add(x, Count(-1, -size, 0, 0)) }

  function Tallied(th: Thread, bt: nat, x: Count): Thread
    requires bt in th.cache
  {
    th.(cache := th.cache[bt := th.cache[bt].(cnts := x)])
  }

  ghost predicate CanSample(s: State, t: nat, bt: nat, obj: nat)
  {
    t < |s.threads| && bt in s.threads[t].cache && obj !in s.objects
  }

  function DoSample(s: State, t: nat, bt: nat, obj: nat, size: nat, accum: bool): State
    requires t < |s.threads| && bt in s.threads[t].cache
  {
    var th := s.threads[t];
    With(s, t, Tallied(th, bt, Sampled(th.cache[bt].cnts, size, accum))).(objects :=
        s.objects[obj := Object(th.cache[bt].ctx, size)])
  }

  ghost predicate CanBeginFree(s: State, t: nat, obj: nat)
  {
    && t < |s.threads| && obj in s.objects && s.threads[t].freeing.None?
    && forall u | 0 <= u < |s.threads| :: s.threads[u].freeing != Some(obj)
  }

  function DoBeginFree(s: State, t: nat, obj: nat): State
    requires t < |s.threads|
  {
    With(s, t, s.threads[t].(freeing := Some(obj)))
  }

  predicate Freeing(s: State, t: nat)
  {
    && t < |s.threads| && s.threads[t].freeing.Some? && s.threads[t].freeing.value in s.objects
    && s.objects[s.threads[t].freeing.value].ctx in s.ctxs
  }

  ghost predicate CanEndFree(s: State, t: nat)
  {
    Freeing(s, t) && s.ctxs[s.objects[s.threads[t].freeing.value].ctx].bt in s.threads[t].cache
  }

  function DoEndFree(s: State, t: nat): State
    requires Freeing(s, t) && s.ctxs[s.objects[s.threads[t].freeing.value].ctx].bt in s.threads[t].cache
  {
    var th := s.threads[t];
    var o := th.freeing.value;
    var bt := s.ctxs[s.objects[o].ctx].bt;
    With(s, t, Tallied(th, bt, Freed(th.cache[bt].cnts, s.objects[o].size)).(freeing := None)).(objects :=
        s.objects - {o})
  }

  ghost predicate CanFallBack(s: State, t: nat)
  {
    t < |s.threads| && s.threads[t].freeing.Some? && s.threads[t].freeing.value in s.objects && s.threads[t].look.None?
  }

  function DoFallBack(s: State, t: nat): State
    requires Freeing(s, t)
  {
    var th := s.threads[t];
    var o := th.freeing.value;
    var x := s.ctxs[s.objects[o].ctx];
    WithCtx(With(s, t, th.(freeing := None)), s.objects[o].ctx, x.(merged := Freed(x.merged, s.objects[o].size)))
      .(objects := s.objects - {o})
  }

  ghost predicate CanDumpPrep(s: State, t: nat, c: nat)
  {
    s.prepping == Some(t) && c in s.table.Values && c !in s.dumped
  }

  function DoDumpPrep(s: State, c: nat): State
    requires c in s.ctxs
  {
    WithCtx(s, c, s.ctxs[c].(nlimbo := s.ctxs[c].nlimbo + 1)).(dumped := s.dumped + {c})
  }

  ghost predicate CanDumpDone(s: State, c: nat) { Unlocked(s) && c in s.dumped }

  function DoDumpDone(s: State, c: nat): State
    requires c in s.ctxs
  {
    WithCtx(s, c, s.ctxs[c].(nlimbo := s.ctxs[c].nlimbo - 1)).(dumped := s.dumped - {c})
  }

  // A step is possible: what the control flow and the locks of the source allow.
  ghost predicate Enabled(s: State, step: Step)
  {
    match step
    case Search(t, bt, address) => CanSearch(s, t, bt, address)
    case Link(t) => CanLink(s, t)
    case InsertFails(t, bt, address, lost) => CanInsertFail(s, t, bt, address, lost)
    case GiveUp(t) => CanGiveUp(s, t)
    case CacheFails(t, lost) => CanCacheFail(s, t, lost)
    case Merge(t, bt) => CanMerge(s, t, bt)
    case Destroy(t) => CanDestroy(s, t)
    case Release(t) => CanRelease(s, t)
    case Sample(t, bt, obj, _) => CanSample(s, t, bt, obj)
    case BeginFree(t, obj) => CanBeginFree(s, t, obj)
    case EndFree(t) => CanEndFree(s, t)
    case FallBack(t) => CanFallBack(s, t)
    case DumpEnter(t) => t < |s.threads| && Unlocked(s) && s.dumped == {}
    case DumpPrep(t, c) => CanDumpPrep(s, t, c)
    case DumpLeave(t) => s.prepping == Some(t)
    case DumpDone(c) => CanDumpDone(s, c)
  }

  // The step's effect; accum is opt_prof_accum.
  ghost function Apply(s: State, step: Step, accum: bool): State
    requires Enabled(s, step)
    requires Touched(s, step).Some? ==> Touched(s, step).value in s.ctxs
  {
    match step
    case Search(t, bt, address) => DoSearch(s, t, bt, address)
    case Link(t) => DoLink(s, t)
    case InsertFails(t, bt, address, lost) => DoInsertFails(s, bt, address, lost)
    case GiveUp(t) => DoGiveUp(s, t)
    case CacheFails(t, lost) => DoCacheFails(s, t, lost)
    case Merge(t, bt) => DoMerge(s, t, bt, accum)
    case Destroy(t) => DoDestroy(s, t)
    case Release(t) => DoRelease(s, t)
    case Sample(t, bt, obj, size) => DoSample(s, t, bt, obj, size, accum)
    case BeginFree(t, obj) => DoBeginFree(s, t, obj)
    case EndFree(t) => DoEndFree(s, t)
    case FallBack(t) => DoFallBack(s, t)
    case DumpEnter(t) => s.(prepping := Some(t))
    case DumpPrep(t, c) => DoDumpPrep(s, c)
    case DumpLeave(t) => s.(prepping := None)
    case DumpDone(c) => DoDumpDone(s, c)
  }

  // A failed insertion that keeps the new entry, whose context or counter is freed, and drops
  // another one.
  ghost predicate Loses(s: State, step: Step)
  {
    match step
    case InsertFails(_, bt, _, lost) => lost != bt
    case CacheFails(t, lost) => t < |s.threads| && s.threads[t].look.Some? && lost != s.threads[t].look.value.bt
    case _ => false
  }

  // -------------------------------------------------------------------------- references

  // c is allocated and the global table leads to it.
  ghost predicate Live(s: State, c: nat)
  {
    c in s.ctxs && s.ctxs[c].bt in s.table && s.table[s.ctxs[c].bt] == c
  }

  ghost predicate ThreadOk(s: State, t: nat)
    requires t < |s.threads|
  {
    var th := s.threads[t];
    && (forall bt :: bt in th.cache ==>
         Live(s, th.cache[bt].ctx) && s.ctxs[th.cache[bt].ctx].bt == bt && t in s.ctxs[th.cache[bt].ctx].cnts)
    && (th.look.Some? ==>
         Live(s, th.look.value.ctx) && s.ctxs[th.look.value.ctx].bt == th.look.value.bt
             && th.look.value.bt !in th.cache)
    && (th.doom.Some? ==> Live(s, th.doom.value))
    && (th.gone.Some? ==> th.gone.value in s.ctxs && !Live(s, th.gone.value))
    && (th.freeing.Some? ==> th.freeing.value in s.objects)
  }

  ghost predicate CtxOk(s: State, c: nat)
    requires c in s.ctxs
  {
    && (forall t :: t in s.ctxs[c].cnts ==>
         t < |s.threads| && s.ctxs[c].bt in s.threads[t].cache && s.threads[t].cache[s.ctxs[c].bt].ctx == c)
    && (Live(s, c) || s.ctxs[c].cnts == {})
  }

  // Every reference that a thread, the table, an object or the dump list has leads to an
  // allocated context, and nothing but its destroyer leads to one that left the table.
  ghost predicate Refs(s: State)
  {
    && (forall t :: 0 <= t < |s.threads| ==> ThreadOk(s, t))
    && (forall c :: c in s.ctxs ==> CtxOk(s, c))
    && (forall bt :: bt in s.table ==> s.table[bt] in s.ctxs && s.ctxs[s.table[bt]].bt == bt)
    && (forall o :: o in s.objects ==> Live(s, s.objects[o].ctx))
    && (forall c :: c in s.dumped ==> Live(s, c))
    && (forall t, u :: 0 <= t < u < |s.threads| && s.threads[t].gone.Some? ==> s.threads[t].gone != s.threads[u].gone)
    && (forall t, u :: 0 <= t < u < |s.threads| && s.threads[t].freeing.Some? ==>
         s.threads[t].freeing != s.threads[u].freeing)
  }

  // ------------------------------------------------------------------------------- limbo

  datatype Holder = Looking(t: nat) | Dooming(t: nat) | Releasing(t: nat) | Dumping

  ghost predicate Holds(s: State, h: Holder, c: nat)
  {
    match h
    case Looking(t) => t < |s.threads| && s.threads[t].look.Some? && s.threads[t].look.value.ctx == c
    case Dooming(t) => t < |s.threads| && s.threads[t].doom == Some(c)
    case Releasing(t) => t < |s.threads| && s.threads[t].gone == Some(c)
    case Dumping => c in s.dumped
  }

  ghost function AllHolders(n: nat): (hs: set<Holder>)
    ensures forall h :: h in hs <==> h.Dumping? || h.t < n
  {
    if n == 0 then {Dumping} else AllHolders(n - 1) + {Looking(n - 1), Dooming(n - 1), Releasing(n - 1)}
  }

  // Who keeps a context in limbo.
  ghost function Holders(s: State, c: nat): (hs: set<Holder>)
    ensures forall h :: h in hs <==> Holds(s, h, c)
  {
    set h | h in AllHolders(|s.threads|) && Holds(s, h, c)
  }

  ghost predicate LimboOk(s: State, c: nat)
    requires c in s.ctxs
  {
    s.ctxs[c].nlimbo == |Holders(s, c)| + s.ctxs[c].lost
  }

  // nlimbo counts the threads that hold the context in limbo, and the increments that got lost.
  ghost predicate Limbo(s: State)
  {
    forall c :: c in s.ctxs ==> LimboOk(s, c)
  }

  // ----------------------------------------------------------------------------- balance

  ghost function Sum(m: map<nat, Count>): Count
  {
    if m == map[] then ZERO else
    var k: nat :| k in m;
    Add(m[k], Sum(m - {k}))
  }

  ghost function Shares(s: State, c: nat): map<nat, Count>
    requires Refs(s) && c in s.ctxs
  {
    map t | t in s.ctxs[c].cnts :: assert CtxOk(s, c); s.threads[t].cache[s.ctxs[c].bt].cnts
  }

  ghost function Sizes(s: State, c: nat): map<nat, Count>
  {
    map o | o in s.objects && s.objects[o].ctx == c :: Count(1, s.objects[o].size, 0, 0)
  }

  ghost predicate BalanceOk(s: State, c: nat)
    requires Refs(s) && c in s.ctxs
  {
    var has, objs := Add(s.ctxs[c].merged, Sum(Shares(s, c))), Sum(Sizes(s, c));
    has.curobjs == objs.curobjs && has.curbytes == objs.curbytes
  }

  // The merged counts and the threads' counts of a context add up to its live objects.
  ghost predicate Balance(s: State)
    requires Refs(s)
  {
    forall c :: c in s.ctxs ==> BalanceOk(s, c)
  }

  ghost predicate Inv(s: State)
  {
    Refs(s) && Limbo(s) && Balance(s)
  }

  // A possible step only touches contexts that are allocated.
  lemma NoDangling(s: State, step: Step)
    requires Refs(s) && Enabled(s, step) && Touched(s, step).Some?
    ensures Touched(s, step).value in s.ctxs
  {
    match step
    case Link(t) => assert ThreadOk(s, t);
    case GiveUp(t) => assert ThreadOk(s, t);
    case CacheFails(t, _) => assert ThreadOk(s, t);
    case Merge(t, bt) => assert ThreadOk(s, t);
    case Destroy(t) => assert ThreadOk(s, t);
    case Release(t) => assert ThreadOk(s, t);
    case BeginFree(t, obj) => assert Live(s, s.objects[obj].ctx);
    case FallBack(t) => assert Live(s, s.objects[s.threads[t].freeing.value].ctx);
    case _ =>
  }

  // ---------------------------------------------------------------------- sums and sets

  lemma {:induction false} SumOut(m: map<nat, Count>, k: nat)
    requires k in m
    ensures Sum(m) == Add(m[k], Sum(m - {k}))
    decreases |m|
  {
    var j: nat :| j in m && Sum(m) == Add(m[j], Sum(m - {j}));
    if j != k {
      var a, b := m - {j}, m - {k};
      SumOut(a, k);
      SumOut(b, j);
      var rest := a - {k};
      assert rest == b - {j};
      assert a[k] == m[k] && b[j] == m[j];
      assert Sum(a) == Add(m[k], Sum(rest));
      assert Sum(b) == Add(m[j], Sum(rest));
      assert Sum(m) == Add(m[j], Sum(a));
      assert Add(m[j], Sum(a)) == Add(m[k], Sum(b));
    }
  }

  lemma SumPut(m: map<nat, Count>, k: nat, x: Count)
    ensures k !in m ==> Sum(m[k := x]) == Add(x, Sum(m))
    ensures k in m ==> Sum(m[k := x]) == Add(x, Sum(m - {k}))
  {
    SumOut(m[k := x], k);
    assert m[k := x] - {k} == m - {k};
    assert k !in m ==> m - {k} == m;
  }

  // Every object counts for one.
  lemma {:induction false} SumOfSizes(m: map<nat, Count>)
    requires forall k :: k in m ==> m[k].curobjs == 1
    ensures Sum(m).curobjs == |m|
    decreases |m|
  {
    if m != map[] {
      var k: nat :| k in m && Sum(m) == Add(m[k], Sum(m - {k}));
      var rest := m - {k};
      SumOfSizes(rest);
      assert rest.Keys == m.Keys - {k} && |m| == |m.Keys| && |rest| == |rest.Keys|;
      assert Add(m[k], Sum(rest)).curobjs == 1 + Sum(rest).curobjs;
    }
  }

  lemma HoldersSame(s: State, s': State, c: nat)
    requires forall h :: Holds(s, h, c) <==> Holds(s', h, c)
    ensures Holders(s', c) == Holders(s, c)
  { }

  lemma HoldersMore(s: State, s': State, c: nat, h: Holder)
    requires !Holds(s, h, c) && Holds(s', h, c)
    requires forall g :: g != h ==> (Holds(s, g, c) <==> Holds(s', g, c))
    ensures |Holders(s', c)| == |Holders(s, c)| + 1
  {
    assert Holders(s', c) == Holders(s, c) + {h};
  }

  lemma HoldersMoved(s: State, s': State, c: nat, h: Holder, g: Holder)
    requires h != g && Holds(s, h, c) && !Holds(s, g, c) && !Holds(s', h, c) && Holds(s', g, c)
    requires forall i :: i != h && i != g ==> (Holds(s, i, c) <==> Holds(s', i, c))
    ensures |Holders(s', c)| == |Holders(s, c)|
  {
    assert Holders(s', c) + {h} == Holders(s, c) + {g};
    assert |Holders(s', c) + {h}| == |Holders(s', c)| + 1;
    assert |Holders(s, c) + {g}| == |Holders(s, c)| + 1;
  }

  // ------------------------------------------------------- every step keeps the references

  // Thread t may change; for the others contexts stay where they are.
  ghost predicate Keeps(s: State, s': State, t: nat)
  {
    && |s'.threads| == |s.threads|
    && (forall u :: 0 <= u < |s.threads| && u != t ==> s'.threads[u] == s.threads[u])
    && (forall c :: Live(s, c) ==> KeepsCtx(s, s', t, c))
  }

  ghost predicate KeepsCtx(s: State, s': State, t: nat, c: nat)
    requires c in s.ctxs
  {
    && Live(s', c) && s'.ctxs[c].bt == s.ctxs[c].bt
    && (forall u :: u != t && u in s.ctxs[c].cnts ==> u in s'.ctxs[c].cnts)
  }

  lemma ThreadFrame(s: State, s': State, t: nat, u: nat)
    requires Keeps(s, s', t) && u < |s.threads| && u != t && ThreadOk(s, u)
    requires s.threads[u].gone.Some? ==> s.threads[u].gone.value in s'.ctxs && !Live(s', s.threads[u].gone.value)
    requires s.threads[u].freeing.Some? ==> s.threads[u].freeing.value in s'.objects
    ensures ThreadOk(s', u)
  {
    var th := s.threads[u];
    forall bt | bt in th.cache
      ensures Live(s', th.cache[bt].ctx) && s'.ctxs[th.cache[bt].ctx].bt == bt && u in s'.ctxs[th.cache[bt].ctx].cnts
    {
      assert KeepsCtx(s, s', t, th.cache[bt].ctx);
    }
    if th.look.Some? { assert KeepsCtx(s, s', t, th.look.value.ctx); }
    if th.doom.Some? { assert KeepsCtx(s, s', t, th.doom.value); }
  }

  // A context keeps its list if the counters on it do.
  lemma CtxFrame(s: State, s': State, t: nat, c: nat)
    requires Keeps(s, s', t) && c in s.ctxs && c in s'.ctxs && CtxOk(s, c) && s'.ctxs[c].bt == s.ctxs[c].bt
    requires s'.ctxs[c].cnts <= s.ctxs[c].cnts + {t} && (s'.ctxs[c].cnts == {} || Live(s', c))
    requires t in s'.ctxs[c].cnts ==>
               t < |s.threads| && s.ctxs[c].bt in s'.threads[t].cache && s'.threads[t].cache[s.ctxs[c].bt].ctx == c
    ensures CtxOk(s', c)
  {
    hide Live;
  }

  // What a step has to show that leaves the table alone.
  lemma RefsFrom(s: State, s': State, t: nat)
    requires Refs(s) && t < |s.threads| && Keeps(s, s', t) && s'.table == s.table && s'.ctxs.Keys == s.ctxs.Keys
    requires forall c :: c in s.ctxs ==> s'.ctxs[c].bt == s.ctxs[c].bt && s'.ctxs[c].cnts <= s.ctxs[c].cnts + {t}
    requires forall c :: c in s.ctxs && t in s'.ctxs[c].cnts ==> Linked(s', t, c)
    requires ThreadOk(s', t) && (s'.threads[t].gone.Some? ==> s'.threads[t].gone == s.threads[t].gone)
    requires forall c :: c in s'.dumped ==> Live(s, c)
    requires forall o :: o in s'.objects ==> Live(s, s'.objects[o].ctx)
    requires forall u :: 0 <= u < |s.threads| && u != t && s.threads[u].freeing.Some? ==>
               s.threads[u].freeing.value in s'.objects
    requires forall u :: 0 <= u < |s.threads| && u != t && s'.threads[t].freeing.Some? ==>
               s.threads[u].freeing != s'.threads[t].freeing
    ensures Refs(s')
  {
    hide ThreadOk, CtxOk;
    forall u | 0 <= u < |s'.threads| ensures ThreadOk(s', u)
    {
      if u != t {
        GoneOf(s, u);
        ThreadFrame(s, s', t, u);
      }
    }
    forall c | c in s'.ctxs ensures CtxOk(s', c)
    {
      ListOf(s, c);
      CtxFrame(s, s', t, c);
    }
  }

  ghost predicate Linked(s: State, t: nat, c: nat)
  {
    t < |s.threads| && c in s.ctxs && Live(s, c) && s.ctxs[c].bt in s.threads[t].cache
        && s.threads[t].cache[s.ctxs[c].bt].ctx == c
  }

  lemma ListOf(s: State, c: nat)
    requires c in s.ctxs && CtxOk(s, c)
    ensures Live(s, c) || s.ctxs[c].cnts == {}
  { }

  lemma GoneOf(s: State, u: nat)
    requires u < |s.threads| && ThreadOk(s, u)
    ensures s.threads[u].gone.Some? ==> s.threads[u].gone.value in s.ctxs && !Live(s, s.threads[u].gone.value)
    ensures s.threads[u].freeing.Some? ==> s.threads[u].freeing.value in s.objects
  { }

  lemma SearchKnownRefs(s: State, t: nat, bt: nat, address: nat)
    requires Refs(s) && CanSearch(s, t, bt, address) && bt in s.table
    ensures s.table[bt] in s.ctxs && Refs(DoSearch(s, t, bt, address))
  {
    hide CtxOk;
    var s' := DoSearch(s, t, bt, address);
    assert ThreadOk(s, t);
    CountersOf(s, t);
    RefsFrom(s, s', t);
  }

  // A thread on a context's list has its counter.
  lemma CountersOf(s: State, t: nat)
    requires Refs(s) && t < |s.threads|
    ensures forall c :: c in s.ctxs && t in s.ctxs[c].cnts ==> Linked(s, t, c)
    ensures forall u :: 0 <= u < |s.threads| && u != t && s.threads[u].freeing.Some? ==>
              s.threads[u].freeing.value in s.objects
  {
    OthersFreeing(s, t);
    forall c | c in s.ctxs && t in s.ctxs[c].cnts ensures Linked(s, t, c) { assert CtxOk(s, c); }
  }

  lemma SearchNewRefs(s: State, t: nat, bt: nat, address: nat)
    requires Refs(s) && CanSearch(s, t, bt, address) && bt !in s.table
    ensures Refs(DoSearch(s, t, bt, address))
  {
    hide ThreadOk, CtxOk;
    var s' := DoSearch(s, t, bt, address);
    assert forall c :: Live(s', c) <==> Live(s, c) || c == address;
    assert Keeps(s, s', t);
    NewSearcher(s, t, bt, address);
    forall u | 0 <= u < |s'.threads| ensures ThreadOk(s', u)
    {
      assert ThreadOk(s, u);
      if u != t {
        GoneOf(s, u);
        ThreadFrame(s, s', t, u);
      }
    }
    forall c | c in s'.ctxs ensures CtxOk(s', c)
    {
      if c == address {
        NewCtx(s', c);
      } else {
        assert CtxOk(s, c);
        CtxOf(s, s', t, c);
      }
    }
  }

  lemma NewSearcher(s: State, t: nat, bt: nat, address: nat)
    requires Refs(s) && CanSearch(s, t, bt, address) && bt !in s.table
    ensures ThreadOk(DoSearch(s, t, bt, address), t)
  {
    assert ThreadOk(s, t);
    var s' := DoSearch(s, t, bt, address);
    assert forall c :: Live(s, c) ==> c != address && Live(s', c) && s'.ctxs[c] == s.ctxs[c];
  }

  lemma NewCtx(s: State, c: nat)
    requires c in s.ctxs && s.ctxs[c].cnts == {}
    ensures CtxOk(s, c)
  { }

  lemma CtxOf(s: State, s': State, t: nat, c: nat)
    requires Keeps(s, s', t) && t < |s.threads| && c in s.ctxs && c in s'.ctxs && CtxOk(s, c) && s'.ctxs[c] == s.ctxs[c]
    requires s'.threads[t].cache == s.threads[t].cache && (Live(s, c) ==> Live(s', c))
    ensures CtxOk(s', c)
  { }

  lemma SearchRefs(s: State, t: nat, bt: nat, address: nat)
    requires Refs(s) && CanSearch(s, t, bt, address)
    ensures (bt in s.table ==> s.table[bt] in s.ctxs) && Refs(DoSearch(s, t, bt, address))
  {
    if bt in s.table { SearchKnownRefs(s, t, bt, address); } else { SearchNewRefs(s, t, bt, address); }
  }

  lemma LinkRefs(s: State, t: nat)
    requires Refs(s) && CanLink(s, t)
    ensures s.threads[t].look.value.ctx in s.ctxs && Refs(DoLink(s, t))
  {
    hide CtxOk;
    assert ThreadOk(s, t);
    CountersOf(s, t);
    RefsFrom(s, DoLink(s, t), t);
  }

  lemma MergeRefs(s: State, t: nat, bt: nat, accum: bool)
    requires Refs(s) && CanMerge(s, t, bt)
    ensures s.threads[t].cache[bt].ctx in s.ctxs && Refs(DoMerge(s, t, bt, accum))
  {
    hide CtxOk, Add;
    assert ThreadOk(s, t);
    CountersOf(s, t);
    RefsFrom(s, DoMerge(s, t, bt, accum), t);
  }

  lemma GiveUpRefs(s: State, t: nat)
    requires Refs(s) && CanGiveUp(s, t)
    ensures s.threads[t].look.value.ctx in s.ctxs && Refs(DoGiveUp(s, t))
  {
    hide CtxOk;
    assert ThreadOk(s, t);
    CountersOf(s, t);
    RefsFrom(s, DoGiveUp(s, t), t);
  }

  lemma ReleaseRefs(s: State, t: nat)
    requires Refs(s) && CanRelease(s, t)
    ensures s.threads[t].gone.value in s.ctxs && Refs(DoRelease(s, t))
  {
    assert ThreadOk(s, t);
    var s', c := DoRelease(s, t), s.threads[t].gone.value;
    assert Keeps(s, s', t);
    forall u | 0 <= u < |s'.threads| ensures ThreadOk(s', u)
    {
      assert ThreadOk(s, u);
      if u != t { ThreadFrame(s, s', t, u); }
    }
    forall d | d in s'.ctxs ensures CtxOk(s', d)
    {
      assert CtxOk(s, d);
      CtxFrame(s, s', t, d);
    }
  }

  lemma SampleRefs(s: State, t: nat, bt: nat, obj: nat, size: nat, accum: bool)
    requires Refs(s) && CanSample(s, t, bt, obj)
    ensures Refs(DoSample(s, t, bt, obj, size, accum))
  {
    hide CtxOk, Add;
    assert ThreadOk(s, t);
    CountersOf(s, t);
    RefsFrom(s, DoSample(s, t, bt, obj, size, accum), t);
  }

  lemma OthersFreeing(s: State, t: nat)
    requires Refs(s)
    ensures forall u :: 0 <= u < |s.threads| && u != t && s.threads[u].freeing.Some? ==>
              s.threads[u].freeing.value in s.objects
  {
    forall u | 0 <= u < |s.threads| && u != t
        && s.threads[u].freeing.Some? ensures s.threads[u].freeing.value in s.objects
    {
      assert ThreadOk(s, u);
    }
  }

  lemma BeginFreeRefs(s: State, t: nat, obj: nat)
    requires Refs(s) && CanBeginFree(s, t, obj)
    ensures Refs(DoBeginFree(s, t, obj))
  {
    hide CtxOk;
    assert ThreadOk(s, t);
    CountersOf(s, t);
    RefsFrom(s, DoBeginFree(s, t, obj), t);
  }

  lemma EndFreeRefs(s: State, t: nat)
    requires Refs(s) && CanEndFree(s, t)
    ensures Refs(DoEndFree(s, t))
  {
    hide CtxOk, Add;
    assert ThreadOk(s, t);
    CountersOf(s, t);
    RefsFrom(s, DoEndFree(s, t), t);
  }

  lemma FallBackRefs(s: State, t: nat)
    requires Refs(s) && CanFallBack(s, t)
    ensures Freeing(s, t) && Refs(DoFallBack(s, t))
  {
    hide CtxOk, Add;
    assert ThreadOk(s, t);
    CountersOf(s, t);
    assert Live(s, s.objects[s.threads[t].freeing.value].ctx);
    RefsFrom(s, DoFallBack(s, t), t);
  }

  lemma DumpPrepRefs(s: State, t: nat, c: nat)
    requires Refs(s) && CanDumpPrep(s, t, c)
    ensures c in s.ctxs && Refs(DoDumpPrep(s, c))
  {
    hide ThreadOk, CtxOk;
    var s' := DoDumpPrep(s, c);
    SameLists(s, s');
  }

  lemma DumpDoneRefs(s: State, c: nat)
    requires Refs(s) && CanDumpDone(s, c)
    ensures c in s.ctxs && Refs(DoDumpDone(s, c))
  {
    hide ThreadOk, CtxOk;
    assert Live(s, c);
    var s' := DoDumpDone(s, c);
    SameLists(s, s');
  }

  lemma SameLists(s: State, s': State)
    requires Refs(s) && s'.threads == s.threads && s'.table == s.table && s'.objects == s.objects
    requires s'.ctxs.Keys == s.ctxs.Keys
    requires forall c :: c in s.ctxs ==> s'.ctxs[c].bt == s.ctxs[c].bt && s'.ctxs[c].cnts == s.ctxs[c].cnts
    requires forall c :: c in s'.dumped ==> Live(s, c)
    ensures Refs(s')
  {
    forall u | 0 <= u < |s'.threads| ensures ThreadOk(s', u) { assert ThreadOk(s, u); }
    forall c | c in s'.ctxs ensures CtxOk(s', c) { assert CtxOk(s, c); }
  }

  // The last one to leave: what makes it safe to take a context out of the table.
  lemma NobodyElse(s: State, t: nat)
    requires Inv(s) && t < |s.threads| && s.threads[t].doom.Some? && s.threads[t].doom.value in s.ctxs
    requires Unused(s.ctxs[s.threads[t].doom.value])
    ensures var c := s.threads[t].doom.value;
            && (forall h :: Holds(s, h, c) ==> h == Dooming(t))
            && (forall o :: o in s.objects ==> s.objects[o].ctx != c)
            && (forall u :: 0 <= u < |s.threads| ==> NoCounter(s, u, c))
            && s.ctxs[c].merged.curbytes == 0
  {
    hide ThreadOk, CtxOk;
    var c := s.threads[t].doom.value;
    OnlyHolder(s, t, c);
    assert BalanceOk(s, c);
    assert Shares(s, c) == map[];
    SumOfSizes(Sizes(s, c));
    assert Sizes(s, c) == map[];
    forall o | o in s.objects ensures s.objects[o].ctx != c { assert o !in Sizes(s, c); }
    forall u | 0 <= u < |s.threads| ensures NoCounter(s, u, c)
    {
      NotListed(s, u, c);
    }
  }

  ghost predicate NoCounter(s: State, u: nat, c: nat)
    requires u < |s.threads|
  {
    forall bt :: bt in s.threads[u].cache ==> s.threads[u].cache[bt].ctx != c
  }

  lemma NotListed(s: State, u: nat, c: nat)
    requires u < |s.threads| && ThreadOk(s, u) && c in s.ctxs && s.ctxs[c].cnts == {}
    ensures NoCounter(s, u, c)
  { }

  lemma OnlyHolder(s: State, t: nat, c: nat)
    requires Limbo(s) && t < |s.threads| && s.threads[t].doom == Some(c) && c in s.ctxs && s.ctxs[c].nlimbo == 1
    ensures forall h :: Holds(s, h, c) ==> h == Dooming(t)
  {
    assert LimboOk(s, c) && Holds(s, Dooming(t), c);
    forall h | Holds(s, h, c) ensures h == Dooming(t)
    {
      if h != Dooming(t) {
        var two := {h, Dooming(t)};
        assert two <= Holders(s, c);
        Fewer(two, Holders(s, c));
      }
    }
  }

  lemma Fewer(a: set<Holder>, b: set<Holder>)
    requires a <= b
    ensures |a| <= |b|
  {
    assert b == a + (b - a);
  }

  lemma DestroyRefs(s: State, t: nat)
    requires Inv(s) && CanDestroy(s, t)
    ensures s.threads[t].doom.value in s.ctxs && Refs(DoDestroy(s, t))
  {
    hide CtxOk, Limbo, Balance;
    assert ThreadOk(s, t);
    if Unused(s.ctxs[s.threads[t].doom.value]) {
      TakenOut(s, t);
    } else {
      CountersOf(s, t);
      RefsFrom(s, DoDestroy(s, t), t);
    }
  }

  lemma TakenOut(s: State, t: nat)
    requires Inv(s) && CanDestroy(s, t) && s.threads[t].doom.value in s.ctxs && Unused(s.ctxs[s.threads[t].doom.value])
    requires Live(s, s.threads[t].doom.value)
    ensures Refs(DoDestroy(s, t))
  {
    hide ThreadOk, CtxOk, Limbo, Balance, NoCounter, Holds;
    var s', c := DoDestroy(s, t), s.threads[t].doom.value;
    NobodyElse(s, t);
    assert forall d :: Live(s', d) <==> Live(s, d) && d != c;
    forall u | 0 <= u < |s'.threads| ensures ThreadOk(s', u) && (u != t ==> s.threads[u].gone != Some(c))
    {
      assert !Holds(s, Looking(u), c) && !Holds(s, Releasing(u), c) && (u != t ==> !Holds(s, Dooming(u), c));
      OutOfReach(s, s', t, u, c);
    }
    forall d | d in s'.ctxs ensures CtxOk(s', d) { CtxLeft(s, s', t, d, c); }
    assert !Holds(s, Dumping, c);
    Undumped(s, c);
  }

  lemma Undumped(s: State, c: nat)
    requires !Holds(s, Dumping, c)
    ensures c !in s.dumped
  { }

  lemma CtxLeft(s: State, s': State, t: nat, d: nat, c: nat)
    requires t < |s.threads| && d in s.ctxs && CtxOk(s, d) && s'.ctxs == s.ctxs && |s'.threads| == |s.threads|
    requires (d == c ==> s.ctxs[d].cnts == {})
    requires forall u :: 0 <= u < |s.threads| ==> s'.threads[u].cache == s.threads[u].cache
    requires Live(s, d) && d != c ==> Live(s', d)
    ensures CtxOk(s', d)
  { }

  lemma OutOfReach(s: State, s': State, t: nat, u: nat, c: nat)
    requires t < |s.threads| && u < |s.threads| && ThreadOk(s, u) && NoCounter(s, u, c) && c in s.ctxs
    requires !Holds(s, Looking(u), c) && !Holds(s, Releasing(u), c) && (u != t ==> !Holds(s, Dooming(u), c))
    requires s'.ctxs == s.ctxs && s'.objects == s.objects && forall d :: Live(s', d) <==> Live(s, d) && d != c
    requires s'.threads == s.threads[t := s.threads[t].(doom := None, gone := Some(c))]
    ensures ThreadOk(s', u) && (u != t ==> s.threads[u].gone != Some(c))
  { }

  // ------------------------------------------------------------ every step keeps the counts

  lemma HolderThere(s: State, h: Holder, c: nat)
    requires Refs(s) && Holds(s, h, c)
    ensures c in s.ctxs
  {
    match h
    case Looking(t) => assert ThreadOk(s, t);
    case Dooming(t) => assert ThreadOk(s, t);
    case Releasing(t) => assert ThreadOk(s, t);
    case Dumping =>
  }

  // The contexts a step does not change.
  lemma LimboFrom(s: State, s': State, c: nat)
    requires Limbo(s) && (c in s'.ctxs ==> LimboOk(s', c))
    requires forall d :: d in s'.ctxs && d != c ==>
               d in s.ctxs && s'.ctxs[d].nlimbo == s.ctxs[d].nlimbo && s'.ctxs[d].lost == s.ctxs[d].lost
    requires forall h, d :: d != c ==> (Holds(s, h, d) <==> Holds(s', h, d))
    ensures Limbo(s')
  {
    hide Holds, Holders;
    forall d | d in s'.ctxs && d != c ensures LimboOk(s', d)
    {
      assert LimboOk(s, d);
      HoldersSame(s, s', d);
    }
  }

  lemma SearchLimbo(s: State, t: nat, bt: nat, address: nat)
    requires Refs(s) && Limbo(s) && CanSearch(s, t, bt, address) && (bt in s.table ==> s.table[bt] in s.ctxs)
    ensures Limbo(DoSearch(s, t, bt, address))
  {
    hide Refs, Limbo, Holders;
    var s', c := DoSearch(s, t, bt, address), if bt in s.table then s.table[bt] else address;
    HoldersMore(s, s', c, Looking(t));
    if bt in s.table {
      LimboAt(s, c);
    } else {
      forall h ensures !Holds(s, h, address)
      {
        if Holds(s, h, address) { HolderThere(s, h, address); }
      }
      NoHolder(s, address);
    }
    LimboFrom(s, s', c);
  }

  lemma LimboAt(s: State, c: nat)
    requires Limbo(s) && c in s.ctxs
    ensures LimboOk(s, c)
  { }

  lemma NoHolder(s: State, c: nat)
    requires forall h :: !Holds(s, h, c)
    ensures Holders(s, c) == {}
  { }

  lemma LinkLimbo(s: State, t: nat)
    requires Limbo(s) && CanLink(s, t) && s.threads[t].look.value.ctx in s.ctxs
    ensures Limbo(DoLink(s, t))
  {
    hide Limbo, Holders;
    var s', c := DoLink(s, t), s.threads[t].look.value.ctx;
    HoldersMore(s', s, c, Looking(t));
    LimboAt(s, c);
    LimboFrom(s, s', c);
  }

  lemma GiveUpLimbo(s: State, t: nat)
    requires Limbo(s) && CanGiveUp(s, t) && s.threads[t].look.value.ctx in s.ctxs
    ensures Limbo(DoGiveUp(s, t))
  {
    hide Limbo, Holders;
    var s', c := DoGiveUp(s, t), s.threads[t].look.value.ctx;
    if s.threads[t].look.value.isNew {
      HoldersMoved(s, s', c, Looking(t), Dooming(t));
    } else {
      HoldersMore(s', s, c, Looking(t));
    }
    LimboAt(s, c);
    LimboFrom(s, s', c);
  }

  lemma MergeLimbo(s: State, t: nat, bt: nat, accum: bool)
    requires Limbo(s) && CanMerge(s, t, bt) && s.threads[t].cache[bt].ctx in s.ctxs
    ensures Limbo(DoMerge(s, t, bt, accum))
  {
    hide Limbo, Holders, Add;
    var s', c := DoMerge(s, t, bt, accum), s.threads[t].cache[bt].ctx;
    if s'.threads[t].doom.Some? {
      HoldersMore(s, s', c, Dooming(t));
    } else {
      HoldersSame(s, s', c);
    }
    LimboAt(s, c);
    LimboFrom(s, s', c);
  }

  lemma DestroyLimbo(s: State, t: nat)
    requires Limbo(s) && CanDestroy(s, t) && s.threads[t].doom.value in s.ctxs
    ensures Limbo(DoDestroy(s, t))
  {
    hide Limbo, Holders;
    var s', c := DoDestroy(s, t), s.threads[t].doom.value;
    if Unused(s.ctxs[c]) {
      HoldersMoved(s, s', c, Dooming(t), Releasing(t));
    } else {
      HoldersMore(s', s, c, Dooming(t));
    }
    LimboAt(s, c);
    LimboFrom(s, s', c);
  }

  lemma ReleaseLimbo(s: State, t: nat)
    requires Limbo(s) && CanRelease(s, t)
    ensures Limbo(DoRelease(s, t))
  {
    hide Limbo, Holders;
    LimboFrom(s, DoRelease(s, t), s.threads[t].gone.value);
  }

  lemma DumpPrepLimbo(s: State, t: nat, c: nat)
    requires Limbo(s) && CanDumpPrep(s, t, c) && c in s.ctxs
    ensures Limbo(DoDumpPrep(s, c))
  {
    hide Limbo, Holders;
    HoldersMore(s, DoDumpPrep(s, c), c, Dumping);
    LimboAt(s, c);
    LimboFrom(s, DoDumpPrep(s, c), c);
  }

  lemma DumpDoneLimbo(s: State, c: nat)
    requires Limbo(s) && CanDumpDone(s, c) && c in s.ctxs
    ensures Limbo(DoDumpDone(s, c))
  {
    hide Limbo, Holders;
    HoldersMore(DoDumpDone(s, c), s, c, Dumping);
    LimboAt(s, c);
    LimboFrom(s, DoDumpDone(s, c), c);
  }

  // Steps that nobody enters or leaves limbo by.
  lemma StillLimbo(s: State, s': State)
    requires Limbo(s) && s'.ctxs.Keys == s.ctxs.Keys && s'.dumped == s.dumped && |s'.threads| == |s.threads|
    requires forall c :: c in s.ctxs ==> s'.ctxs[c].nlimbo == s.ctxs[c].nlimbo && s'.ctxs[c].lost == s.ctxs[c].lost
    requires forall t :: 0 <= t < |s.threads| ==>
               s'.threads[t].look == s.threads[t].look && s'.threads[t].doom == s.threads[t].doom
                   && s'.threads[t].gone == s.threads[t].gone
    ensures Limbo(s')
  {
    forall c | c in s'.ctxs ensures LimboOk(s', c)
    {
      LimboAt(s, c);
      HoldersSame(s, s', c);
    }
  }

  // ----------------------------------------------------------- every step keeps the balance

  // Thread t's share of c's counts.
  ghost function Own(s: State, t: nat, c: nat): Count
    requires c in s.ctxs && (t in s.ctxs[c].cnts ==> t < |s.threads| && s.ctxs[c].bt in s.threads[t].cache)
  {
    if t in s.ctxs[c].cnts then s.threads[t].cache[s.ctxs[c].bt].cnts else ZERO
  }

  lemma OwnDefined(s: State, t: nat, c: nat)
    requires Refs(s) && c in s.ctxs
    ensures t in s.ctxs[c].cnts ==> t < |s.threads| && s.ctxs[c].bt in s.threads[t].cache
  {
    assert CtxOk(s, c);
  }

  lemma ShareSum(m: map<nat, Count>, t: nat, own: Count)
    requires own == if t in m then m[t] else ZERO
    ensures Sum(m) == Add(own, Sum(m - {t}))
  {
    hide Sum;
    if t in m {
      SumOut(m, t);
    } else {
      assert m - {t} == m;
      var x := Sum(m);
      assert Add(ZERO, x) == Count(x.curobjs, x.curbytes, x.accumobjs, x.accumbytes) == x;
    }
  }

  lemma OwnShare(s: State, t: nat, c: nat)
    requires Refs(s) && c in s.ctxs && (t in s.ctxs[c].cnts ==> t < |s.threads| && s.ctxs[c].bt in s.threads[t].cache)
    ensures Sum(Shares(s, c)) == Add(Own(s, t, c), Sum(Shares(s, c) - {t}))
  {
    var m := Shares(s, c);
    assert m.Keys == s.ctxs[c].cnts;
    ShareSum(m, t, Own(s, t, c));
  }

  // If only thread t's share may change, then it alone makes the difference.
  lemma OnlyShare(s: State, s': State, t: nat, c: nat) returns (rest: Count)
    requires Refs(s) && Refs(s') && c in s.ctxs && c in s'.ctxs && |s'.threads| == |s.threads|
    requires s'.ctxs[c].bt == s.ctxs[c].bt && s'.ctxs[c].cnts - {t} == s.ctxs[c].cnts - {t}
    requires forall u :: 0 <= u < |s.threads| && u != t ==> s'.threads[u].cache == s.threads[u].cache
    ensures t in s.ctxs[c].cnts ==> t < |s.threads| && s.ctxs[c].bt in s.threads[t].cache
    ensures t in s'.ctxs[c].cnts ==> t < |s'.threads| && s'.ctxs[c].bt in s'.threads[t].cache
    ensures Sum(Shares(s, c)) == Add(Own(s, t, c), rest) && Sum(Shares(s', c)) == Add(Own(s', t, c), rest)
  {
    hide Refs, Own;
    OwnDefined(s, t, c);
    OwnDefined(s', t, c);
    OwnShare(s, t, c);
    OwnShare(s', t, c);
    var a, b := Shares(s, c) - {t}, Shares(s', c) - {t};
    assert a.Keys == s.ctxs[c].cnts - {t} && b.Keys == s'.ctxs[c].cnts - {t};
    forall u | u in a ensures a[u] == b[u]
    {
      assert u in s.ctxs[c].cnts && u in s'.ctxs[c].cnts && u != t;
      OwnDefined(s, u, c);
      assert Shares(s, c)[u] == s.threads[u].cache[s.ctxs[c].bt].cnts;
      assert Shares(s', c)[u] == s'.threads[u].cache[s.ctxs[c].bt].cnts;
    }
    assert a == b;
    rest := Sum(a);
  }

  lemma LinkBalance(s: State, t: nat, c: nat)
    requires Inv(s) && CanLink(s, t) && s.threads[t].look.value.ctx in s.ctxs && Refs(DoLink(s, t)) && c in s.ctxs
    ensures BalanceOk(DoLink(s, t), c)
  {
    hide ThreadOk, CtxOk, Limbo, Refs, Shares, Sizes;
    var s' := DoLink(s, t);
    assert BalanceOk(s, c);
    SameSizes(s, s', c);
    NotYet(s, t);
    var rest := OnlyShare(s, s', t, c);
  }

  lemma NotYet(s: State, t: nat)
    requires Refs(s) && CanLink(s, t)
    ensures forall c :: c in s.ctxs && t in s.ctxs[c].cnts ==> s.ctxs[c].bt != s.threads[t].look.value.bt
    ensures s.threads[t].look.value.ctx in s.ctxs ==> t !in s.ctxs[s.threads[t].look.value.ctx].cnts
    ensures s.threads[t].look.value.ctx in s.ctxs ==>
              s.ctxs[s.threads[t].look.value.ctx].bt == s.threads[t].look.value.bt
  {
    assert ThreadOk(s, t);
    forall c | c in s.ctxs && t in s.ctxs[c].cnts
      ensures s.ctxs[c].bt != s.threads[t].look.value.bt
    {
      assert CtxOk(s, c);
    }
  }

  lemma MergeBalance(s: State, t: nat, bt: nat, accum: bool, c: nat)
    requires Inv(s) && CanMerge(s, t, bt) && s.threads[t].cache[bt].ctx in s.ctxs && Refs(DoMerge(s, t, bt, accum))
    requires c in s.ctxs
    ensures BalanceOk(DoMerge(s, t, bt, accum), c)
  {
    hide ThreadOk, CtxOk, Limbo, Refs, Shares, Sizes;
    var s' := DoMerge(s, t, bt, accum);
    assert BalanceOk(s, c);
    SameSizes(s, s', c);
    CounterOf(s, t, bt);
    var rest := OnlyShare(s, s', t, c);
  }

  lemma CounterOf(s: State, t: nat, bt: nat)
    requires Refs(s) && t < |s.threads| && bt in s.threads[t].cache
    ensures var c := s.threads[t].cache[bt].ctx;
            && c in s.ctxs && s.ctxs[c].bt == bt && t in s.ctxs[c].cnts
            && forall d :: d in s.ctxs && t in s.ctxs[d].cnts && s.ctxs[d].bt == bt ==> d == c
  {
    assert ThreadOk(s, t);
    forall d | d in s.ctxs && t in s.ctxs[d].cnts && s.ctxs[d].bt == bt
      ensures d == s.threads[t].cache[bt].ctx
    {
      assert CtxOk(s, d);
    }
  }

  lemma SampleBalance(s: State, t: nat, bt: nat, obj: nat, size: nat, accum: bool, c: nat)
    requires Inv(s) && CanSample(s, t, bt, obj) && Refs(DoSample(s, t, bt, obj, size, accum)) && c in s.ctxs
    ensures BalanceOk(DoSample(s, t, bt, obj, size, accum), c)
  {
    hide ThreadOk, CtxOk, Limbo, Refs, Shares, Sizes;
    var s' := DoSample(s, t, bt, obj, size, accum);
    assert BalanceOk(s, c);
    CounterOf(s, t, bt);
    var rest := OnlyShare(s, s', t, c);
    Picked(s, s', obj, s'.objects[obj], c);
  }

  lemma Picked(s: State, s': State, o: nat, x: Object, c: nat)
    requires o !in s.objects && s'.objects == s.objects[o := x]
    ensures c != x.ctx ==> Sizes(s', c) == Sizes(s, c)
    ensures c == x.ctx ==> Sum(Sizes(s', c)) == Add(Count(1, x.size, 0, 0), Sum(Sizes(s, c)))
  {
    if c == x.ctx {
      assert Sizes(s', c) == Sizes(s, c)[o := Count(1, x.size, 0, 0)];
      SumPut(Sizes(s, c), o, Count(1, x.size, 0, 0));
    } else {
      assert Sizes(s', c) == Sizes(s, c);
    }
  }

  lemma EndFreeBalance(s: State, t: nat, c: nat)
    requires Inv(s) && CanEndFree(s, t) && Refs(DoEndFree(s, t)) && c in s.ctxs
    ensures BalanceOk(DoEndFree(s, t), c)
  {
    hide ThreadOk, CtxOk, Limbo, Refs, Shares, Sizes;
    var s', o := DoEndFree(s, t), s.threads[t].freeing.value;
    var d := s.objects[o].ctx;
    assert BalanceOk(s, c);
    ObjectCounter(s, t, o);
    CounterOf(s, t, s.ctxs[d].bt);
    var rest := OnlyShare(s, s', t, c);
    Dropped(s, s', o, c);
  }

  // The counter that the lookup finds is that of the object's own context.
  lemma ObjectCounter(s: State, t: nat, o: nat)
    requires Refs(s) && t < |s.threads| && o in s.objects && s.objects[o].ctx in s.ctxs
    requires s.ctxs[s.objects[o].ctx].bt in s.threads[t].cache
    ensures s.threads[t].cache[s.ctxs[s.objects[o].ctx].bt].ctx == s.objects[o].ctx
  {
    assert ThreadOk(s, t) && Live(s, s.objects[o].ctx);
  }

  lemma Dropped(s: State, s': State, o: nat, c: nat)
    requires o in s.objects && s'.objects == s.objects - {o}
    ensures c != s.objects[o].ctx ==> Sizes(s', c) == Sizes(s, c)
    ensures c == s.objects[o].ctx ==> Sum(Sizes(s, c)) == Add(Count(1, s.objects[o].size, 0, 0), Sum(Sizes(s', c)))
  {
    if c == s.objects[o].ctx {
      SumOut(Sizes(s, c), o);
      assert Sizes(s', c) == Sizes(s, c) - {o};
    } else {
      assert Sizes(s', c) == Sizes(s, c);
    }
  }

  lemma FallBackBalance(s: State, t: nat, c: nat)
    requires Inv(s) && CanFallBack(s, t) && Freeing(s, t) && Refs(DoFallBack(s, t)) && c in s.ctxs
    ensures BalanceOk(DoFallBack(s, t), c)
  {
    hide ThreadOk, CtxOk, Limbo, Refs, Shares, Sizes;
    var s', o := DoFallBack(s, t), s.threads[t].freeing.value;
    assert BalanceOk(s, c);
    var rest := OnlyShare(s, s', t, c);
    Dropped(s, s', o, c);
  }

  lemma SameSizes(s: State, s': State, c: nat)
    requires s'.objects == s.objects
    ensures Sizes(s', c) == Sizes(s, c)
  { }

  // Steps that move no counts.
  lemma StillBalanced(s: State, s': State)
    requires Inv(s) && Refs(s') && s'.objects == s.objects && |s'.threads| == |s.threads|
    requires forall c :: c in s'.ctxs && c in s.ctxs ==>
               s'.ctxs[c].bt == s.ctxs[c].bt && s'.ctxs[c].cnts == s.ctxs[c].cnts
                   && s'.ctxs[c].merged == s.ctxs[c].merged
    requires forall t :: 0 <= t < |s.threads| ==> s'.threads[t].cache == s.threads[t].cache
    requires forall c :: c in s'.ctxs && c !in s.ctxs ==> s'.ctxs[c].cnts == {} && s'.ctxs[c].merged == ZERO
    ensures Balance(s')
  {
    hide ThreadOk, CtxOk, Limbo, Refs, Sizes;
    forall c | c in s'.ctxs ensures BalanceOk(s', c)
    {
      SameSizes(s, s', c);
      if c in s.ctxs {
        assert BalanceOk(s, c);
        SameShares(s, s', c);
      } else {
        NoObjects(s, c);
        assert Shares(s', c) == map[];
      }
    }
  }

  lemma SameShares(s: State, s': State, c: nat)
    requires Refs(s) && Refs(s') && c in s.ctxs && c in s'.ctxs && |s'.threads| == |s.threads|
    requires s'.ctxs[c].bt == s.ctxs[c].bt && s'.ctxs[c].cnts == s.ctxs[c].cnts
    requires forall t :: 0 <= t < |s.threads| ==> s'.threads[t].cache == s.threads[t].cache
    ensures Shares(s', c) == Shares(s, c)
  {
    hide Refs;
    var a, b := Shares(s, c), Shares(s', c);
    assert a.Keys == s.ctxs[c].cnts && b.Keys == s.ctxs[c].cnts;
    forall u | u in a ensures a[u] == b[u]
    {
      OwnDefined(s, u, c);
    }
  }

  lemma NoObjects(s: State, c: nat)
    requires Refs(s) && c !in s.ctxs
    ensures Sizes(s, c) == map[]
  {
    forall o | o in s.objects ensures s.objects[o].ctx != c { assert Live(s, s.objects[o].ctx); }
  }

  // ------------------------------------------------------------------- the protocol is safe

  // Every possible step touches allocated contexts only, and keeps the invariant, unless an
  // insertion fails that keeps the new entry.
  lemma StepSafe(s: State, step: Step, accum: bool)
    requires Inv(s) && Enabled(s, step) && !Loses(s, step)
    ensures Touched(s, step).Some? ==> Touched(s, step).value in s.ctxs
    ensures Inv(Apply(s, step, accum))
  {
    hide Refs, Limbo, Balance, Holds, Shares, Sizes, ThreadOk, CtxOk, DoMerge, DoSearch, DoLink, DoGiveUp, DoDestroy,
         DoSample, DoEndFree, DoFallBack;
    match step
    case Search(t, bt, address) =>
      SearchRefs(s, t, bt, address);
      SearchLimbo(s, t, bt, address);
      SearchBalance(s, t, bt, address);
    case Link(t) =>
      LinkRefs(s, t);
      LinkLimbo(s, t);
      AllLinkBalance(s, t);
    case InsertFails(t, bt, address, lost) =>
      assert s.table[bt := address] - {bt} == s.table;
    case GiveUp(t) => GiveUpSafe(s, t);
    case CacheFails(t, lost) => GiveUpSafe(s, t);
    case Merge(t, bt) =>
      MergeRefs(s, t, bt, accum);
      MergeLimbo(s, t, bt, accum);
      AllMergeBalance(s, t, bt, accum);
    case Destroy(t) =>
      DestroyRefs(s, t);
      DestroyLimbo(s, t);
      DestroyBalance(s, t);
    case Release(t) =>
      ReleaseRefs(s, t);
      ReleaseLimbo(s, t);
      StillBalanced(s, DoRelease(s, t));
    case Sample(t, bt, obj, size) =>
      SampleRefs(s, t, bt, obj, size, accum);
      AllSampleBalance(s, t, bt, obj, size, accum);
    case BeginFree(t, obj) =>
      BeginFreeRefs(s, t, obj);
      StillLimbo(s, DoBeginFree(s, t, obj));
      StillBalanced(s, DoBeginFree(s, t, obj));
      ObjectThere(s, obj);
    case EndFree(t) =>
      EndFreeRefs(s, t);
      AllEndFreeBalance(s, t);
    case FallBack(t) =>
      FallBackRefs(s, t);
      AllFallBackBalance(s, t);
    case DumpPrep(t, c) =>
      DumpPrepRefs(s, t, c);
      DumpPrepLimbo(s, t, c);
      StillBalanced(s, DoDumpPrep(s, c));
    case DumpDone(c) =>
      DumpDoneRefs(s, c);
      DumpDoneLimbo(s, c);
      StillBalanced(s, DoDumpDone(s, c));
    case _ => DumperInv(s, Apply(s, step, accum));
  }

  lemma GiveUpSafe(s: State, t: nat)
    requires Inv(s) && CanGiveUp(s, t)
    ensures s.threads[t].look.value.ctx in s.ctxs && Inv(DoGiveUp(s, t))
  {
    hide Refs, Limbo, Balance;
    GiveUpRefs(s, t);
    GiveUpLimbo(s, t);
    GiveUpBalance(s, t);
  }

  lemma ObjectThere(s: State, obj: nat)
    requires Refs(s) && obj in s.objects
    ensures s.objects[obj].ctx in s.ctxs
  {
    assert Live(s, s.objects[obj].ctx);
  }

  lemma SearchBalance(s: State, t: nat, bt: nat, address: nat)
    requires Inv(s) && CanSearch(s, t, bt, address) && (bt in s.table ==> s.table[bt] in s.ctxs)
    requires Refs(DoSearch(s, t, bt, address))
    ensures Balance(DoSearch(s, t, bt, address))
  {
    hide Refs, Limbo;
    StillBalanced(s, DoSearch(s, t, bt, address));
  }

  lemma GiveUpBalance(s: State, t: nat)
    requires Inv(s) && CanGiveUp(s, t) && s.threads[t].look.value.ctx in s.ctxs && Refs(DoGiveUp(s, t))
    ensures Balance(DoGiveUp(s, t))
  {
    hide Refs, Limbo;
    StillBalanced(s, DoGiveUp(s, t));
  }

  lemma DestroyBalance(s: State, t: nat)
    requires Inv(s) && CanDestroy(s, t) && s.threads[t].doom.value in s.ctxs && Refs(DoDestroy(s, t))
    ensures Balance(DoDestroy(s, t))
  {
    hide Refs, Limbo;
    StillBalanced(s, DoDestroy(s, t));
  }

  lemma AllLinkBalance(s: State, t: nat)
    requires Inv(s) && CanLink(s, t) && s.threads[t].look.value.ctx in s.ctxs && Refs(DoLink(s, t))
    ensures Balance(DoLink(s, t))
  {
    hide Refs, Limbo, BalanceOk;
    forall c | c in DoLink(s, t).ctxs ensures BalanceOk(DoLink(s, t), c) { LinkBalance(s, t, c); }
  }

  lemma AllMergeBalance(s: State, t: nat, bt: nat, accum: bool)
    requires Inv(s) && CanMerge(s, t, bt) && s.threads[t].cache[bt].ctx in s.ctxs && Refs(DoMerge(s, t, bt, accum))
    ensures Balance(DoMerge(s, t, bt, accum))
  {
    hide Refs, Limbo, BalanceOk, Add;
    forall c | c in DoMerge(s, t, bt, accum).ctxs
      ensures BalanceOk(DoMerge(s, t, bt, accum), c)
    {
      MergeBalance(s, t, bt, accum, c);
    }
  }

  lemma AllSampleBalance(s: State, t: nat, bt: nat, obj: nat, size: nat, accum: bool)
    requires Inv(s) && CanSample(s, t, bt, obj) && Refs(DoSample(s, t, bt, obj, size, accum))
    ensures Limbo(DoSample(s, t, bt, obj, size, accum)) && Balance(DoSample(s, t, bt, obj, size, accum))
  {
    hide Refs, Limbo, BalanceOk, Add;
    StillLimbo(s, DoSample(s, t, bt, obj, size, accum));
    forall c | c in s.ctxs
      ensures BalanceOk(DoSample(s, t, bt, obj, size, accum), c)
    {
      SampleBalance(s, t, bt, obj, size, accum, c);
    }
  }

  lemma AllEndFreeBalance(s: State, t: nat)
    requires Inv(s) && CanEndFree(s, t) && Refs(DoEndFree(s, t))
    ensures Limbo(DoEndFree(s, t)) && Balance(DoEndFree(s, t))
  {
    hide Refs, Limbo, BalanceOk, Add;
    StillLimbo(s, DoEndFree(s, t));
    forall c | c in s.ctxs ensures BalanceOk(DoEndFree(s, t), c) { EndFreeBalance(s, t, c); }
  }

  lemma AllFallBackBalance(s: State, t: nat)
    requires Inv(s) && CanFallBack(s, t) && Freeing(s, t) && Refs(DoFallBack(s, t))
    ensures Limbo(DoFallBack(s, t)) && Balance(DoFallBack(s, t))
  {
    hide Refs, Limbo, BalanceOk, Add;
    StillLimbo(s, DoFallBack(s, t));
    forall c | c in DoFallBack(s, t).ctxs ensures BalanceOk(DoFallBack(s, t), c) { FallBackBalance(s, t, c); }
  }

  lemma DumperInv(s: State, s': State)
    requires Inv(s) && s' == s.(prepping := s'.prepping)
    ensures Inv(s')
  {
    hide Limbo;
    SameLists(s, s');
    StillLimbo(s, s');
    StillBalanced(s, s');
  }

  // A run starts with threads that have nothing, and takes possible steps.
  predicate Fresh(s: State)
  {
    && s.ctxs == map[] && s.table == map[] && s.objects == map[] && s.prepping.None? && s.dumped == {}
    && forall t :: 0 <= t < |s.threads| ==> s.threads[t] == Thread(map[], None, None, None, None)
  }

  // States along a run: steps[i] leads from states[i] to states[i + 1].
  ghost predicate Run(states: seq<State>, steps: seq<Step>, accum: bool)
  {
    && |states| == |steps| + 1 && Fresh(states[0])
    && forall i :: 0 <= i < |steps| ==> Next(states[i], steps[i], states[i + 1], accum)
  }

  // A step through a pointer that leads nowhere could do anything.
  ghost predicate Next(s: State, step: Step, s': State, accum: bool)
  {
    && Enabled(s, step)
    && (Touched(s, step).None? || Touched(s, step).value in s.ctxs ==> s' == Apply(s, step, accum))
  }

  // No insertion fails in the first n steps that keeps the new entry.
  ghost predicate Steady(states: seq<State>, steps: seq<Step>, n: nat)
    requires |states| == |steps| + 1 && n <= |steps|
  {
    forall i :: 0 <= i < n ==> !Loses(states[i], steps[i])
  }

  lemma FreshInv(s: State)
    requires Fresh(s)
    ensures Inv(s)
  { }

  // As long as no insertion keeps an entry for what is freed next, no step goes through a
  // dangling pointer, however the threads interleave.
  lemma {:induction false} RunSafe(states: seq<State>, steps: seq<Step>, accum: bool, n: nat)
    requires Run(states, steps, accum) && n <= |steps| && Steady(states, steps, n)
    ensures Inv(states[n])
    ensures n < |steps| && Touched(states[n], steps[n]).Some? ==> Touched(states[n], steps[n]).value in states[n].ctxs
  {
    hide Refs, Limbo, Balance, Enabled, Apply, Touched, Fresh, Loses;
    if n == 0 {
      FreshInv(states[0]);
    } else {
      RunSafe(states, steps, accum, n - 1);
      assert Next(states[n - 1], steps[n - 1], states[n], accum);
      StepSafe(states[n - 1], steps[n - 1], accum);
    }
    if n < |steps| {
      assert Next(states[n], steps[n], states[n + 1], accum);
      StepTouches(states[n], steps[n]);
    }
  }

  lemma StepTouches(s: State, step: Step)
    requires Inv(s) && Enabled(s, step)
    ensures Touched(s, step).Some? ==> Touched(s, step).value in s.ctxs
  {
    hide Touched, Limbo, Balance, Enabled, Refs;
    if Touched(s, step).Some? { NoDangling(s, step); }
  }

  // Nothing refers to a context whose memory is about to be released, except its destroyer.
  lemma NothingRefers(s: State, t: nat)
    requires Refs(s) && CanRelease(s, t)
    ensures var c := s.threads[t].gone.value;
            && c !in s.table.Values && c !in s.dumped && c in s.ctxs && s.ctxs[c].cnts == {}
            && (forall o :: o in s.objects ==> s.objects[o].ctx != c)
            && (forall u :: 0 <= u < |s.threads| ==>
                  && NoCounter(s, u, c) && s.threads[u].doom != Some(c) && (u != t ==> s.threads[u].gone != Some(c))
                  && (s.threads[u].look.Some? ==> s.threads[u].look.value.ctx != c))
  {
    var c := s.threads[t].gone.value;
    assert ThreadOk(s, t) && CtxOk(s, c);
    forall u | 0 <= u < |s.threads|
      ensures NoCounter(s, u, c) && s.threads[u].doom != Some(c) && (u != t ==> s.threads[u].gone != Some(c))
      ensures s.threads[u].look.Some? ==> s.threads[u].look.value.ctx != c
    {
      assert ThreadOk(s, u);
    }
    forall bt | bt in s.table ensures s.table[bt] != c { assert s.ctxs[s.table[bt]].bt == bt; }
  }

  // nlimbo never falls below the number of those who hold the context in limbo.
  lemma LimboCovers(states: seq<State>, steps: seq<Step>, accum: bool, n: nat, c: nat)
    requires Run(states, steps, accum) && n <= |steps| && Steady(states, steps, n) && c in states[n].ctxs
    ensures |Holders(states[n], c)| <= states[n].ctxs[c].nlimbo
  {
    hide Holders, Refs, Balance, Limbo, Next, Fresh;
    RunSafe(states, steps, accum, n);
    LimboAt(states[n], c);
  }

  // No thread has a counter for the context and no object refers to it, nobody but t, as its
  // destroyer, holds it in limbo, and no increment of nlimbo was lost.
  ghost predicate Abandoned(s: State, t: nat, c: nat)
    requires c in s.ctxs
  {
    && (forall u :: 0 <= u < |s.threads| ==> NoCounter(s, u, c))
    && (forall o :: o in s.objects ==> s.objects[o].ctx != c)
    && (forall h :: Holds(s, h, c) ==> h == Dooming(t)) && s.ctxs[c].lost == 0
  }

  // The destroyer's test says exactly that nothing but the destroyer needs the context, and
  // that no increment of nlimbo was lost.
  lemma UnusedIff(s: State, t: nat)
    requires Inv(s) && t < |s.threads| && s.threads[t].doom.Some?
    ensures var c := s.threads[t].doom.value;
            c in s.ctxs && (Unused(s.ctxs[c]) <==> Abandoned(s, t, c))
  {
    hide Balance, Limbo;
    assert ThreadOk(s, t);
    var c := s.threads[t].doom.value;
    LimboAt(s, c);
    assert Holds(s, Dooming(t), c) && Dooming(t) in Holders(s, c);
    Fewer({Dooming(t)}, Holders(s, c));
    if Unused(s.ctxs[c]) {
      NobodyElse(s, t);
    }
    if Abandoned(s, t, c) {
      NobodyLeft(s, c);
      assert Holders(s, c) == {Dooming(t)};
    }
  }

  lemma NobodyLeft(s: State, c: nat)
    requires Refs(s) && Balance(s) && c in s.ctxs
    requires forall u :: 0 <= u < |s.threads| ==> NoCounter(s, u, c)
    requires forall o :: o in s.objects ==> s.objects[o].ctx != c
    ensures s.ctxs[c].cnts == {} && s.ctxs[c].merged.curobjs == 0
  {
    assert CtxOk(s, c) && BalanceOk(s, c);
    forall u: nat ensures u !in s.ctxs[c].cnts { if u < |s.threads| { NotOn(s, u, c); } }
    assert Shares(s, c) == map[] && Sizes(s, c) == map[];
  }

  lemma NotOn(s: State, u: nat, c: nat)
    requires u < |s.threads| && c in s.ctxs && CtxOk(s, c) && NoCounter(s, u, c)
    ensures u !in s.ctxs[c].cnts
  { }

  // A context that somebody is about to release has lost no increment.
  ghost predicate Clean(s: State)
  {
    forall t :: 0 <= t < |s.threads| && s.threads[t].gone.Some? && s.threads[t].gone.value in s.ctxs ==>
        s.ctxs[s.threads[t].gone.value].lost == 0
  }

  // What was lost stays lost, in a context that stays.
  ghost predicate Stays(s: State, s': State)
  {
    forall c :: c in s.ctxs && s.ctxs[c].lost > 0 ==> c in s'.ctxs && s'.ctxs[c].lost >= s.ctxs[c].lost
  }

  lemma SearchLost(s: State, t: nat, bt: nat, address: nat)
    requires Refs(s) && Clean(s) && CanSearch(s, t, bt, address)
    ensures bt in s.table ==> s.table[bt] in s.ctxs
    ensures Clean(DoSearch(s, t, bt, address)) && Stays(s, DoSearch(s, t, bt, address))
  {
    hide CtxOk, Live;
    var s' := DoSearch(s, t, bt, address);
    forall u | 0 <= u < |s.threads| && s.threads[u].gone.Some?
      ensures s.threads[u].gone.value in s.ctxs
    {
      assert ThreadOk(s, u);
    }
  }

  lemma GiveUpLost(s: State, t: nat)
    requires Refs(s) && Clean(s) && CanGiveUp(s, t)
    ensures s.threads[t].look.value.ctx in s.ctxs && Clean(DoGiveUp(s, t)) && Stays(s, DoGiveUp(s, t))
  {
    hide CtxOk;
    assert ThreadOk(s, t);
    forall u | 0 <= u < |s.threads| && s.threads[u].gone.Some?
      ensures s.threads[u].gone.value != s.threads[t].look.value.ctx
    {
      assert ThreadOk(s, u);
    }
  }

  lemma DestroyLost(s: State, t: nat)
    requires Inv(s) && Clean(s) && CanDestroy(s, t)
    ensures s.threads[t].doom.value in s.ctxs && Clean(DoDestroy(s, t)) && Stays(s, DoDestroy(s, t))
  {
    hide Inv, Clean, Stays, DoDestroy, Holds, NoCounter;
    UnusedIff(s, t);
    DestroyedLost(s, t);
  }

  lemma DestroyedLost(s: State, t: nat)
    requires Clean(s) && CanDestroy(s, t) && s.threads[t].doom.value in s.ctxs
    requires Unused(s.ctxs[s.threads[t].doom.value]) ==> s.ctxs[s.threads[t].doom.value].lost == 0
    ensures Clean(DoDestroy(s, t)) && Stays(s, DoDestroy(s, t))
  { }

  lemma ReleaseLost(s: State, t: nat)
    requires Refs(s) && Clean(s) && CanRelease(s, t)
    ensures Clean(DoRelease(s, t)) && Stays(s, DoRelease(s, t))
  {
    hide CtxOk, Live;
    assert ThreadOk(s, t);
  }

  // The other steps leave these numbers alone.
  lemma OtherLost(s: State, step: Step, accum: bool)
    requires Clean(s) && Enabled(s, step) && (Touched(s, step).Some? ==> Touched(s, step).value in s.ctxs)
    requires !step.Search? && !step.GiveUp? && !step.CacheFails? && !step.Destroy? && !step.Release?
    ensures Clean(Apply(s, step, accum)) && Stays(s, Apply(s, step, accum))
  { }

  lemma LostStep(s: State, step: Step, accum: bool)
    requires Inv(s) && Clean(s) && Enabled(s, step) && !Loses(s, step)
    ensures Touched(s, step).Some? ==> Touched(s, step).value in s.ctxs
    ensures Clean(Apply(s, step, accum)) && Stays(s, Apply(s, step, accum))
  {
    hide Refs, Limbo, Balance, Clean, Stays, DoSearch, DoGiveUp, DoDestroy, DoRelease;
    StepSafe(s, step, accum);
    match step
    case Search(t, bt, address) => SearchLost(s, t, bt, address);
    case GiveUp(t) => GiveUpLost(s, t);
    case CacheFails(t, lost) => GiveUpLost(s, t);
    case Destroy(t) => DestroyLost(s, t);
    case Release(t) => ReleaseLost(s, t);
    case _ => OtherLost(s, step, accum);
  }

  lemma {:induction false} RunClean(states: seq<State>, steps: seq<Step>, accum: bool, n: nat)
    requires Run(states, steps, accum) && n <= |steps| && Steady(states, steps, n)
    ensures Clean(states[n])
  {
    hide Inv, Enabled, Apply, Touched, Loses;
    if n == 0 {
    } else {
      RunClean(states, steps, accum, n - 1);
      RunStep(states, steps, accum, n - 1);
    }
  }

  lemma RunStep(states: seq<State>, steps: seq<Step>, accum: bool, n: nat)
    requires Run(states, steps, accum) && n < |steps| && Steady(states, steps, n + 1) && Clean(states[n])
    ensures Clean(states[n + 1]) && Stays(states[n], states[n + 1])
  {
    hide Loses, Inv, Enabled, Apply, Touched, Clean, Stays, Fresh;
    RunSafe(states, steps, accum, n);
    assert Next(states[n], steps[n], states[n + 1], accum);
    LostStep(states[n], steps[n], accum);
  }

  // A context that lost an increment is there for the rest of the run, and never gets it back.
  lemma {:induction false} LostStays(states: seq<State>, steps: seq<Step>, accum: bool, i: nat, j: nat, c: nat)
    requires Run(states, steps, accum) && i <= j <= |steps| && Steady(states, steps, j)
    requires c in states[i].ctxs && states[i].ctxs[c].lost > 0
    ensures c in states[j].ctxs && states[j].ctxs[c].lost >= states[i].ctxs[c].lost
    decreases j - i
  {
    hide Clean, Next, Fresh, Loses;
    if i < j {
      LostStays(states, steps, accum, i, j - 1, c);
      RunClean(states, steps, accum, j - 1);
      RunStep(states, steps, accum, j - 1);
    }
  }

  // -------------------------------------------------- what prof_ctx_destroy asserts on the way

  ghost predicate NoAccum(s: State)
  {
    && (forall c :: c in s.ctxs ==> s.ctxs[c].merged.accumobjs == 0 && s.ctxs[c].merged.accumbytes == 0)
    && (forall t, bt :: 0 <= t < |s.threads| && bt in s.threads[t].cache ==>
          s.threads[t].cache[bt].cnts.accumobjs == 0 && s.threads[t].cache[bt].cnts.accumbytes == 0)
  }

  lemma NoAccumFrom(s: State, s': State, t: nat)
    requires NoAccum(s) && |s'.threads| == |s.threads|
    requires forall u :: 0 <= u < |s.threads| && u != t ==> s'.threads[u] == s.threads[u]
    requires t < |s.threads| ==> forall bt :: bt in s'.threads[t].cache ==> NoneYet(s'.threads[t].cache[bt].cnts)
    requires forall c :: c in s'.ctxs ==> NoneYet(s'.ctxs[c].merged)
    ensures NoAccum(s')
  { }

  predicate NoneYet(x: Count) { x.accumobjs == 0 && x.accumbytes == 0 }

  lemma NoAccumMerge(s: State, t: nat, bt: nat)
    requires NoAccum(s) && CanMerge(s, t, bt) && s.threads[t].cache[bt].ctx in s.ctxs
    ensures NoAccum(DoMerge(s, t, bt, false))
  {
    NoAccumFrom(s, DoMerge(s, t, bt, false), t);
  }

  lemma NoAccumSample(s: State, t: nat, bt: nat, obj: nat, size: nat)
    requires NoAccum(s) && CanSample(s, t, bt, obj)
    ensures NoAccum(DoSample(s, t, bt, obj, size, false))
  {
    NoAccumFrom(s, DoSample(s, t, bt, obj, size, false), t);
  }

  lemma NoAccumFree(s: State, t: nat)
    requires NoAccum(s) && Freeing(s, t)
    ensures CanEndFree(s, t) ==> NoAccum(DoEndFree(s, t))
    ensures CanFallBack(s, t) ==> NoAccum(DoFallBack(s, t))
  {
    if CanEndFree(s, t) { NoAccumFrom(s, DoEndFree(s, t), t); }
    if CanFallBack(s, t) { NoAccumFrom(s, DoFallBack(s, t), t); }
  }

  lemma NoAccumLook(s: State, t: nat, bt: nat, address: nat)
    requires NoAccum(s)
    ensures CanSearch(s, t, bt, address) && (bt in s.table ==> s.table[bt] in s.ctxs) ==>
              NoAccum(DoSearch(s, t, bt, address))
    ensures CanLink(s, t) && s.threads[t].look.value.ctx in s.ctxs ==> NoAccum(DoLink(s, t))
  { }

  lemma NoAccumLeave(s: State, t: nat)
    requires NoAccum(s)
    ensures CanGiveUp(s, t) && s.threads[t].look.value.ctx in s.ctxs ==> NoAccum(DoGiveUp(s, t))
    ensures CanDestroy(s, t) && s.threads[t].doom.value in s.ctxs ==> NoAccum(DoDestroy(s, t))
    ensures CanRelease(s, t) ==> NoAccum(DoRelease(s, t))
  { }

  lemma NoAccumStep(s: State, step: Step)
    requires NoAccum(s) && Enabled(s, step) && (Touched(s, step).Some? ==> Touched(s, step).value in s.ctxs)
    requires !Loses(s, step)
    ensures NoAccum(Apply(s, step, false))
  {
    hide DoSearch, DoLink, DoGiveUp, DoMerge, DoDestroy, DoRelease, DoSample, DoEndFree, DoFallBack;
    match step
    case Search(t, bt, address) => NoAccumLook(s, t, bt, address);
    case Link(t) => NoAccumLook(s, t, 0, 0);
    case GiveUp(t) => NoAccumLeave(s, t);
    case CacheFails(t, lost) => NoAccumLeave(s, t);
    case Merge(t, bt) => NoAccumMerge(s, t, bt);
    case Destroy(t) => NoAccumLeave(s, t);
    case Release(t) => NoAccumLeave(s, t);
    case Sample(t, bt, obj, size) => NoAccumSample(s, t, bt, obj, size);
    case EndFree(t) => NoAccumFree(s, t);
    case FallBack(t) => NoAccumFree(s, t);
    case _ =>
  }

  // The assertions hold at every destruction if nothing is accumulated ...
  lemma {:induction false} RunCounts(states: seq<State>, steps: seq<Step>, n: nat)
    requires Run(states, steps, false) && n <= |steps| && Steady(states, steps, n)
    ensures NoAccum(states[n])
  {
    hide Loses, Enabled, Apply, Touched, NoAccum;
    if n == 0 {
      FreshCounts(states[0]);
    } else {
      RunCounts(states, steps, n - 1);
      RunSafe(states, steps, false, n - 1);
      assert Next(states[n - 1], steps[n - 1], states[n], false);
      NoAccumStep(states[n - 1], steps[n - 1]);
    }
  }

  lemma FreshCounts(s: State)
    requires Fresh(s)
    ensures NoAccum(s)
  { }

  lemma DestroyAsserts(states: seq<State>, steps: seq<Step>, n: nat, t: nat)
    requires Run(states, steps, false) && n < |steps| && Steady(states, steps, n) && steps[n] == Destroy(t)
    ensures t < |states[n].threads| && states[n].threads[t].doom.Some?
    ensures var c := states[n].threads[t].doom.value;
            c in states[n].ctxs && (Unused(states[n].ctxs[c]) ==> states[n].ctxs[c].merged == ZERO)
  {
    hide NoAccum, Refs, Limbo, Balance;
    RunSafe(states, steps, false, n);
    RunCounts(states, steps, n);
    assert Next(states[n], steps[n], states[n + 1], false);
    var s := states[n];
    MergedCounts(s, s.threads[t].doom.value);
    if Unused(s.ctxs[s.threads[t].doom.value]) { NobodyElse(s, t); }
  }

  lemma MergedCounts(s: State, c: nat)
    requires NoAccum(s) && c in s.ctxs
    ensures s.ctxs[c].merged.accumobjs == 0 && s.ctxs[c].merged.accumbytes == 0
  { }

  // It does happen: one thread makes a context and links its counter, another finds the
  // context and runs out of memory, and the first leaves.
  const STRANDED: seq<Step> := [Search(0, 7, 100), Link(0), Search(1, 7, 0), GiveUp(1), Merge(0, 7)]

  // The state after the first steps of that.
  function Stranded(x: Ctx, a: Thread, b: Thread): State
  {
    State(map[100 := x], map[7 := 100], [a, b], map[], None, {})
  }

  const LINKED: Thread := Thread(map[7 := Counter(100, ZERO)], None, None, None, None)

  lemma StrandedSteps(accum: bool)
    ensures Next(State(map[], map[], [IDLE, IDLE], map[], None, {}), Search(0, 7, 100),
              Stranded(Ctx(7, 1, ZERO, {}, 0), LOOKED, IDLE), accum)
    ensures Next(Stranded(Ctx(7, 1, ZERO, {}, 0), LOOKED, IDLE), Link(0),
              Stranded(Ctx(7, 0, ZERO, {0}, 0), LINKED, IDLE), accum)
  {
    var s0, s1 := State(map[], map[], [IDLE, IDLE], map[], None, {}), Stranded(Ctx(7, 1, ZERO, {}, 0), LOOKED, IDLE);
    assert DoSearch(s0, 0, 7, 100) == s1 by { assert s0.threads[0 := LOOKED] == [LOOKED, IDLE]; }
    assert {} + {0} == {0};
    assert s1.threads[0 := LINKED] == [LINKED, IDLE];
    assert DoLink(s1, 0) == Stranded(Ctx(7, 0, ZERO, {0}, 0), LINKED, IDLE);
  }

  lemma StrandedLoss(accum: bool)
    ensures var l := IDLE.(look := Some(Lookup(7, 100, false)));
            && Next(Stranded(Ctx(7, 0, ZERO, {0}, 0), LINKED, IDLE), Search(1, 7, 0),
                 Stranded(Ctx(7, 1, ZERO, {0}, 0), LINKED, l), accum)
            && Next(Stranded(Ctx(7, 1, ZERO, {0}, 0), LINKED, l), GiveUp(1),
                 Stranded(Ctx(7, 1, ZERO, {0}, 1), LINKED, IDLE), accum)
  {
    var l := IDLE.(look := Some(Lookup(7, 100, false)));
    var s2, s3 := Stranded(Ctx(7, 0, ZERO, {0}, 0), LINKED, IDLE), Stranded(Ctx(7, 1, ZERO, {0}, 0), LINKED, l);
    assert DoSearch(s2, 1, 7, 0) == s3 by { assert s2.threads[1 := l] == [LINKED, l]; }
    assert s3.threads[1 := IDLE] == [LINKED, IDLE];
    assert DoGiveUp(s3, 1) == Stranded(Ctx(7, 1, ZERO, {0}, 1), LINKED, IDLE);
  }

  // A merge that leaves the context to others.
  lemma MergeOnly(s: State, t: nat, bt: nat, accum: bool, k: Counter, x: Ctx, y: Ctx, s': State)
    requires CanMerge(s, t, bt) && s.threads[t] == Thread(map[bt := k], None, None, None, None) && k.ctx in s.ctxs
    requires s.ctxs[k.ctx] == x && x.nlimbo != 0
    requires y.bt == x.bt && y.nlimbo == x.nlimbo && y.merged == Add(x.merged, k.cnts) && y.cnts == x.cnts - {t}
    requires y.lost == x.lost
    requires s' == s.(threads := s.threads[t := IDLE], ctxs := s.ctxs[k.ctx := y])
    ensures Next(s, Merge(t, bt), s', accum)
  {
    assert s.threads[t].cache - {bt} == map[];
  }

  lemma NoneAdded()
    ensures Add(ZERO, ZERO) == ZERO
  { }

  lemma StrandedMerge(accum: bool, x: Ctx, y: Ctx)
    requires x.bt == y.bt == 7 && x.nlimbo == y.nlimbo == 1 && x.merged == y.merged == ZERO && x.lost == y.lost
    requires x.cnts == {0} && y.cnts == {}
    ensures Next(Stranded(x, LINKED, IDLE), Merge(0, 7), Stranded(y, IDLE, IDLE), accum)
  {
    hide Next, Add;
    NoneAdded();
    var s4, s5 := Stranded(x, LINKED, IDLE), Stranded(y, IDLE, IDLE);
    assert s4.ctxs[100 := y] == s5.ctxs && s4.threads[0 := IDLE] == s5.threads;
    MergeOnly(s4, 0, 7, accum, Counter(100, ZERO), x, y, s5);
  }

  // Afterwards nobody holds the context, counts for it or has an object of it, and it stays.
  lemma LostHappens(accum: bool) returns (states: seq<State>)
    ensures Run(states, STRANDED, accum)
    ensures states[5] == Stranded(Ctx(7, 1, ZERO, {}, 1), IDLE, IDLE) && Holders(states[5], 100) == {}
  {
    hide Holders, Next;
    StrandedSteps(accum);
    StrandedLoss(accum);
    StrandedMerge(accum, Ctx(7, 1, ZERO, {0}, 1), Ctx(7, 1, ZERO, {}, 1));
    var l := IDLE.(look := Some(Lookup(7, 100, false)));
    states := [State(map[], map[], [IDLE, IDLE], map[], None, {}), Stranded(Ctx(7, 1, ZERO, {}, 0), LOOKED, IDLE),
               Stranded(Ctx(7, 0, ZERO, {0}, 0), LINKED, IDLE), Stranded(Ctx(7, 1, ZERO, {0}, 0), LINKED, l),
               Stranded(Ctx(7, 1, ZERO, {0}, 1), LINKED, IDLE), Stranded(Ctx(7, 1, ZERO, {}, 1), IDLE, IDLE)];
    NoneHolds(states[5], 100);
  }

  lemma NoneHolds(s: State, c: nat)
    requires s.dumped == {} && forall t :: 0 <= t < |s.threads| ==> s.threads[t] == IDLE
    ensures Holders(s, c) == {}
  { }

  // ... but not if samples are: one thread makes a context, another uses it up and leaves,
  // and the first then fails to get memory.
  const USED_UP: seq<Step> := [Search(0, 7, 100), Search(1, 7, 0), Link(1), Sample(1, 7, 5, 16),
                               BeginFree(1, 5), EndFree(1), Merge(1, 7), GiveUp(0), Destroy(0)]

  const IDLE := Thread(map[], None, None, None, None)

  const LOOKED := IDLE.(look := Some(Lookup(7, 100, true)))

  // The context at 100, the first of two threads, and the second one's counter, if any.
  predicate At(s: State, x: Ctx, a: Thread, k: Option<Count>)
  {
    && |s.threads| == 2 && s.prepping.None? && 7 in s.table && s.table[7] == 100
    && 100 in s.ctxs && s.ctxs[100] == x && s.threads[0] == a
    && var b := s.threads[1];
       b.doom.None? && (k.Some? == (7 in b.cache)) && (k.Some? ==> b.cache[7] == Counter(100, k.value))
  }

  lemma StartStage(s: State) returns (s': State)
    requires s == State(map[], map[], [IDLE, IDLE], map[], None, {})
    ensures Next(s, Search(0, 7, 100), s', true)
    ensures At(s', Ctx(7, 1, ZERO, {}, 0), LOOKED, None) && s'.threads[1] == IDLE && 5 !in s'.objects && 0 !in s'.ctxs
  {
    s' := DoSearch(s, 0, 7, 100);
  }

  lemma SearchStage(s: State) returns (s': State)
    requires At(s, Ctx(7, 1, ZERO, {}, 0), LOOKED, None) && s.threads[1] == IDLE && 0 !in s.ctxs
    ensures Next(s, Search(1, 7, 0), s', true)
    ensures At(s', Ctx(7, 2, ZERO, {}, 0), LOOKED, None) && s'.objects == s.objects
    ensures s'.threads[1] == IDLE.(look := Some(Lookup(7, 100, false)))
  {
    s' := DoSearch(s, 1, 7, 0);
  }

  lemma LinkStage(s: State) returns (s': State)
    requires At(s, Ctx(7, 2, ZERO, {}, 0), LOOKED, None) && s.threads[1] == IDLE.(look := Some(Lookup(7, 100, false)))
    ensures Next(s, Link(1), s', true)
    ensures At(s', Ctx(7, 1, ZERO, {1}, 0), LOOKED, Some(ZERO)) && s'.threads[1].freeing.None?
    ensures s'.objects == s.objects
  {
    assert {} + {1} == {1};
    s' := DoLink(s, 1);
  }

  lemma SampleStage(s: State) returns (s': State)
    requires At(s, Ctx(7, 1, ZERO, {1}, 0), LOOKED, Some(ZERO)) && s.threads[1].freeing.None? && 5 !in s.objects
    ensures Next(s, Sample(1, 7, 5, 16), s', true)
    ensures At(s', Ctx(7, 1, ZERO, {1}, 0), LOOKED, Some(Count(1, 16, 1, 16))) && s'.threads[1].freeing.None?
    ensures 5 in s'.objects && s'.objects[5] == Object(100, 16)
  {
    s' := DoSample(s, 1, 7, 5, 16, true);
    var b := s.threads[1];
    assert Sampled(ZERO, 16, true) == Count(1, 16, 1, 16);
    assert s'.threads[1] == Tallied(b, 7, Count(1, 16, 1, 16));
  }

  lemma BeginFreeStage(s: State) returns (s': State)
    requires At(s, Ctx(7, 1, ZERO, {1}, 0), LOOKED, Some(Count(1, 16, 1, 16))) && s.threads[1].freeing.None?
    requires 5 in s.objects && s.objects[5] == Object(100, 16)
    ensures Next(s, BeginFree(1, 5), s', true)
    ensures At(s', Ctx(7, 1, ZERO, {1}, 0), LOOKED, Some(Count(1, 16, 1, 16))) && s'.threads[1].freeing == Some(5)
    ensures s'.objects == s.objects
  {
    s' := DoBeginFree(s, 1, 5);
  }

  lemma EndFreeStage(s: State) returns (s': State)
    requires At(s, Ctx(7, 1, ZERO, {1}, 0), LOOKED, Some(Count(1, 16, 1, 16))) && s.threads[1].freeing == Some(5)
    requires 5 in s.objects && s.objects[5] == Object(100, 16)
    ensures Next(s, EndFree(1), s', true)
    ensures At(s', Ctx(7, 1, ZERO, {1}, 0), LOOKED, Some(Count(0, 0, 1, 16)))
  {
    s' := DoEndFree(s, 1);
    assert Freed(Count(1, 16, 1, 16), 16) == Count(0, 0, 1, 16);
    assert s'.threads[1] == Tallied(s.threads[1], 7, Count(0, 0, 1, 16)).(freeing := None);
  }

  lemma MergeStage(s: State) returns (s': State)
    requires At(s, Ctx(7, 1, ZERO, {1}, 0), LOOKED, Some(Count(0, 0, 1, 16)))
    ensures Next(s, Merge(1, 7), s', true)
    ensures At(s', Ctx(7, 1, Count(0, 0, 1, 16), {}, 0), LOOKED, None)
  {
    assert {1} - {1} == {};
    s' := DoMerge(s, 1, 7, true);
  }

  lemma GiveUpStage(s: State) returns (s': State)
    requires At(s, Ctx(7, 1, Count(0, 0, 1, 16), {}, 0), LOOKED, None)
    ensures Next(s, GiveUp(0), s', true)
    ensures At(s', Ctx(7, 1, Count(0, 0, 1, 16), {}, 0), IDLE.(doom := Some(100)), None)
  {
    s' := DoGiveUp(s, 0);
  }

  lemma DestroyStage(s: State) returns (s': State)
    requires At(s, Ctx(7, 1, Count(0, 0, 1, 16), {}, 0), IDLE.(doom := Some(100)), None)
    ensures Next(s, Destroy(0), s', true)
  {
    s' := DoDestroy(s, 0);
  }

  lemma AssertFails() returns (states: seq<State>)
    ensures Run(states, USED_UP, true)
    ensures var s := states[8];
            && |s.threads| == 2 && s.threads[0].doom == Some(100) && 100 in s.ctxs && Unused(s.ctxs[100])
            && s.ctxs[100].merged == Count(0, 0, 1, 16)
  {
    hide Next;
    var s0 := State(map[], map[], [IDLE, IDLE], map[], None, {});
    var s1 := StartStage(s0);
    var s2 := SearchStage(s1);
    var s3 := LinkStage(s2);
    var s4 := SampleStage(s3);
    var s5 := BeginFreeStage(s4);
    var s6 := EndFreeStage(s5);
    var s7 := MergeStage(s6);
    var s8 := GiveUpStage(s7);
    var s9 := DestroyStage(s8);
    states := [s0, s1, s2, s3, s4, s5, s6, s7, s8, s9];
  }
}
