// What becomes of a profile context: which steps doom, remove and release it, and what its
// counts add up to.
module Fates {
  import opened Basics
  import opened Contexts

  // ------------------------------------------------------------------------- the way out

  // A merge dooms its context if and only if samples are not accumulated and nothing needs the
  // context any more.
  lemma MergeDooms(s: State, t: nat, bt: nat, accum: bool)
    requires Inv(s) && CanMerge(s, t, bt)
    ensures var c := s.threads[t].cache[bt].ctx;
            && c in s.ctxs
            && var s' := Apply(s, Merge(t, bt), accum);
               && c in s'.ctxs && (s'.threads[t].doom.Some? ==> s'.threads[t].doom == Some(c))
               && (s'.threads[t].doom.Some? <==> !accum && Abandoned(s', t, c))
  {
    hide Refs, Balance, Limbo, ThreadOk, CtxOk, Add;
    NoDangling(s, Merge(t, bt));
    StepSafe(s, Merge(t, bt), accum);
    var s', c := DoMerge(s, t, bt, accum), s.threads[t].cache[bt].ctx;
    if s'.threads[t].doom.Some? {
      UnusedIff(s', t);
    } else if Abandoned(s', t, c) {
      NobodyLeft(s', c);
      LimboAt(s', c);
      NoHolder(s', c);
    }
  }

  // An attempt to destroy takes the context out of the table if and only if nothing needs it.
  lemma DestroyEnds(s: State, t: nat, accum: bool)
    requires Inv(s) && CanDestroy(s, t)
    ensures var c := s.threads[t].doom.value;
            && c in s.ctxs
            && var s' := Apply(s, Destroy(t), accum);
               && s'.threads[t].doom.None? && s'.ctxs.Keys == s.ctxs.Keys
               && s'.threads[t].gone == (if Abandoned(s, t, c) then Some(c) else None)
               && s'.table == (if Abandoned(s, t, c) then s.table - {s.ctxs[c].bt} else s.table)
  {
    hide Refs, Balance, Limbo, Abandoned, NoCounter, Holds;
    NoDangling(s, Destroy(t));
    UnusedIff(s, t);
  }

  // A thread whose lookup fails dooms the context if and only if the lookup made it.
  lemma GiveUpDooms(s: State, t: nat, step: Step, accum: bool)
    requires Inv(s) && Enabled(s, step) && (step == GiveUp(t) || (step.CacheFails? && step.t == t))
    ensures t < |s.threads| && s.threads[t].look.Some? && s.threads[t].look.value.ctx in s.ctxs
    ensures var l := s.threads[t].look.value;
            && var s' := Apply(s, step, accum);
               && s'.threads[t].look.None? && l.ctx in s'.ctxs
               && s'.threads[t].doom == (if l.isNew then Some(l.ctx) else None)
               && s'.ctxs[l.ctx].lost == s.ctxs[l.ctx].lost + if l.isNew then 0 else 1
  {
    hide Refs, Balance, Limbo, ThreadOk, CtxOk;
    NoDangling(s, step);
  }

  // The step leaves t with the task to destroy c.
  ghost predicate Dooms(s: State, step: Step, t: nat, c: nat, accum: bool)
  {
    match step
    case GiveUp(u) => u == t < |s.threads| && NewLook(s.threads[t], c)
    case CacheFails(u, _) => u == t < |s.threads| && NewLook(s.threads[t], c)
    case Merge(u, bt) => !accum && u == t < |s.threads| && bt in s.threads[t].cache && s.threads[t].cache[bt].ctx == c
    case _ => false
  }

  predicate NewLook(th: Thread, c: nat) { th.look.Some? && th.look.value.isNew && th.look.value.ctx == c }

  lemma DoomStep(s: State, step: Step, t: nat, c: nat, accum: bool)
    requires Enabled(s, step) && (Touched(s, step).Some? ==> Touched(s, step).value in s.ctxs) && t < |s.threads|
    ensures |Apply(s, step, accum).threads| == |s.threads|
    ensures Apply(s, step, accum).threads[t].doom == Some(c) ==>
              s.threads[t].doom == Some(c) || Dooms(s, step, t, c, accum)
  {
    SameThreads(s, step, accum);
    if step.GiveUp? || step.CacheFails? {
      hide DoMerge;
      DoomLooking(s, step, t, c, accum);
    } else if step.Merge? {
      hide DoGiveUp, DoCacheFails;
      DoomMerging(s, step.t, step.bt, t, c, accum);
    } else {
      hide DoMerge, DoGiveUp, DoCacheFails;
      DoomOther(s, step, t, c, accum);
    }
  }

  lemma DoomLooking(s: State, step: Step, t: nat, c: nat, accum: bool)
    requires Enabled(s, step) && (Touched(s, step).Some? ==> Touched(s, step).value in s.ctxs) && t < |s.threads|
    requires (step.GiveUp? || step.CacheFails?) && t < |Apply(s, step, accum).threads|
    ensures Apply(s, step, accum).threads[t].doom == Some(c) ==>
              s.threads[t].doom == Some(c) || Dooms(s, step, t, c, accum)
  { }

  lemma DoomMerging(s: State, u: nat, bt: nat, t: nat, c: nat, accum: bool)
    requires CanMerge(s, u, bt) && s.threads[u].cache[bt].ctx in s.ctxs && t < |s.threads|
    ensures DoMerge(s, u, bt, accum).threads[t].doom == Some(c) ==>
              s.threads[t].doom == Some(c) || Dooms(s, Merge(u, bt), t, c, accum)
  { }

  lemma DoomOther(s: State, step: Step, t: nat, c: nat, accum: bool)
    requires Enabled(s, step) && (Touched(s, step).Some? ==> Touched(s, step).value in s.ctxs) && t < |s.threads|
    requires !step.GiveUp? && !step.CacheFails? && !step.Merge? && t < |Apply(s, step, accum).threads|
    ensures Apply(s, step, accum).threads[t].doom == Some(c) ==> s.threads[t].doom == Some(c)
  {
    hide DoMerge, DoGiveUp, DoCacheFails, Add, Live;
  }

  // Every thread that is to destroy a context was told so, by a lookup that had made the context and
  // failed, or by a merge; and by no merge if samples are accumulated.
  lemma {:induction false} DoomFrom(states: seq<State>, steps: seq<Step>, accum: bool, n: nat, t: nat, c: nat)
      returns (i: nat)
    requires Run(states, steps, accum) && n <= |steps| && Steady(states, steps, n)
    requires t < |states[n].threads| && states[n].threads[t].doom == Some(c)
    ensures i < n && Dooms(states[i], steps[i], t, c, accum)
  {
    hide Inv, Enabled, Apply, Touched, Loses, Dooms, Fresh;
    if n == 0 {
      FreshIdle(states[0], t, c);
    } else {
      var s, step := states[n - 1], steps[n - 1];
      assert Next(s, step, states[n], accum);
      RunSafe(states, steps, accum, n - 1);
      SameThreads(s, step, accum);
      DoomStep(s, step, t, c, accum);
      if Dooms(s, step, t, c, accum) {
        i := n - 1;
      } else {
        i := DoomFrom(states, steps, accum, n - 1, t, c);
      }
    }
  }

  lemma FreshIdle(s: State, t: nat, c: nat)
    requires Fresh(s) && t < |s.threads|
    ensures s.threads[t].doom.None? && !NewLook(s.threads[t], c)
  { }

  lemma SameThreads(s: State, step: Step, accum: bool)
    requires Enabled(s, step) && (Touched(s, step).Some? ==> Touched(s, step).value in s.ctxs)
    ensures |Apply(s, step, accum).threads| == |s.threads|
  {
    hide Add, Live;
  }

  // A search looks the context up that the table then has for the backtrace, and marks it as new if
  // and only if it was made just now.
  lemma SearchFinds(s: State, t: nat, bt: nat, address: nat, accum: bool)
    requires Inv(s) && CanSearch(s, t, bt, address)
    ensures bt in s.table ==> s.table[bt] in s.ctxs
    ensures var s' := Apply(s, Search(t, bt, address), accum);
            && s'.table.Keys == s.table.Keys + {bt} && s'.threads[t].look.Some?
            && var l := s'.threads[t].look.value;
               && l.bt == bt && l.ctx == s'.table[bt] && l.ctx in s'.ctxs && s'.ctxs[l.ctx].bt == bt
               && (l.isNew <==> l.ctx !in s.ctxs)
  {
    hide Limbo, Balance, ThreadOk, CtxOk;
  }

  // The search that makes a context.
  ghost predicate Makes(s: State, step: Step, t: nat, c: nat)
  {
    step.Search? && step.t == t && step.address == c && step.bt !in s.table && c !in s.ctxs
  }

  lemma LookStep(s: State, step: Step, t: nat, c: nat, accum: bool)
    requires Enabled(s, step) && (Touched(s, step).Some? ==> Touched(s, step).value in s.ctxs) && t < |s.threads|
    requires t < |Apply(s, step, accum).threads| && NewLook(Apply(s, step, accum).threads[t], c)
    ensures NewLook(s.threads[t], c) || Makes(s, step, t, c)
  {
    hide Makes, NewLook, Add, Live;
    if step.Search? {
      LookSearch(s, step.t, step.bt, step.address, t, c);
    } else {
      LookOther(s, step, t, c, accum);
    }
  }

  lemma LookSearch(s: State, u: nat, bt: nat, address: nat, t: nat, c: nat)
    requires CanSearch(s, u, bt, address) && (bt in s.table ==> s.table[bt] in s.ctxs) && t < |s.threads|
    requires NewLook(DoSearch(s, u, bt, address).threads[t], c)
    ensures NewLook(s.threads[t], c) || Makes(s, Search(u, bt, address), t, c)
  { }

  lemma LookOther(s: State, step: Step, t: nat, c: nat, accum: bool)
    requires Enabled(s, step) && (Touched(s, step).Some? ==> Touched(s, step).value in s.ctxs) && t < |s.threads|
    requires !step.Search? && t < |Apply(s, step, accum).threads| && NewLook(Apply(s, step, accum).threads[t], c)
    ensures NewLook(s.threads[t], c)
  {
    hide DoSearch, Add, Live;
  }

  // A lookup that is marked as new did make its context.
  lemma {:induction false} LookFrom(states: seq<State>, steps: seq<Step>, accum: bool, n: nat, t: nat, c: nat)
      returns (i: nat)
    requires Run(states, steps, accum) && n <= |steps| && Steady(states, steps, n)
    requires t < |states[n].threads| && NewLook(states[n].threads[t], c)
    ensures i < n && Makes(states[i], steps[i], t, c)
  {
    hide Inv, Enabled, Apply, Touched, Loses, Makes, NewLook, Fresh;
    if n == 0 {
      FreshIdle(states[0], t, c);
    } else {
      var s, step := states[n - 1], steps[n - 1];
      assert Next(s, step, states[n], accum);
      RunSafe(states, steps, accum, n - 1);
      SameThreads(s, step, accum);
      LookStep(s, step, t, c, accum);
      if Makes(s, step, t, c) {
        i := n - 1;
      } else {
        i := LookFrom(states, steps, accum, n - 1, t, c);
      }
    }
  }

  // With accumulation a context leaves the table only after the very lookup that made it failed.
  lemma DestroyedAfterFailure(states: seq<State>, steps: seq<Step>, n: nat, t: nat) returns (i: nat, j: nat)
    requires Run(states, steps, true) && n < |steps| && Steady(states, steps, n) && steps[n] == Destroy(t)
    ensures t < |states[n].threads| && states[n].threads[t].doom.Some?
    ensures i < n && (steps[i] == GiveUp(t) || (steps[i].CacheFails? && steps[i].t == t))
    ensures t < |states[i].threads| && NewLook(states[i].threads[t], states[n].threads[t].doom.value)
    ensures j < i && Makes(states[j], steps[j], t, states[n].threads[t].doom.value)
  {
    hide Inv, Apply, Touched, Loses, Fresh, NewLook, Makes;
    assert Next(states[n], steps[n], states[n + 1], true);
    var c := states[n].threads[t].doom.value;
    i := DoomFrom(states, steps, true, n, t, c);
    j := LookFrom(states, steps, true, i, t, c);
  }

  // Contexts come from searches for unknown backtraces only, and go by release only.
  lemma ComeAndGo(s: State, step: Step, c: nat, accum: bool)
    requires Inv(s) && Enabled(s, step) && !Loses(s, step)
    ensures Touched(s, step).Some? ==> Touched(s, step).value in s.ctxs
    ensures var s' := Apply(s, step, accum);
            && (c in s'.ctxs && c !in s.ctxs <==> step.Search? && step.address == c && step.bt !in s.table)
            && (c in s.ctxs && c !in s'.ctxs <==>
                  step.Release? && step.t < |s.threads| && s.threads[step.t].gone == Some(c))
  {
    hide Limbo, Balance, Add;
    StepTouches(s, step);
    if step.Release? { assert ThreadOk(s, step.t); }
  }

  // ---------------------------------------------------------------------------- what is counted

  // All that the context and the threads have counted for it.
  ghost function Total(s: State, c: nat): Count
    requires Refs(s) && c in s.ctxs
  {
    Add(s.ctxs[c].merged, Sum(Shares(s, c)))
  }

  // What a step adds to it: a sample, or a sampled object's end.
  ghost function Effect(s: State, step: Step, c: nat, accum: bool): Count
  {
    match step
    case Sample(t, bt, _, size) =>
      if t < |s.threads| && bt in s.threads[t].cache && s.threads[t].cache[bt].ctx == c
      then (if accum then Count(1, size, 1, size) else Count(1, size, 0, 0)) else ZERO
    case EndFree(t) => Ended(s, t, c)
    case FallBack(t) => Ended(s, t, c)
    case _ => ZERO
  }

  ghost function Ended(s: State, t: nat, c: nat): Count
  {
    if Freeing(s, t) && s.objects[s.threads[t].freeing.value].ctx == c then
      var size: int := s.objects[s.threads[t].freeing.value].size;
      Count(-1, -size, 0, 0)
    else ZERO
  }

  lemma LinkTotal(s: State, t: nat, c: nat)
    requires Inv(s) && CanLink(s, t) && s.threads[t].look.value.ctx in s.ctxs && Refs(DoLink(s, t)) && c in s.ctxs
    ensures Total(DoLink(s, t), c) == Total(s, c)
  {
    hide ThreadOk, CtxOk, Limbo, Refs, Shares;
    NotYet(s, t);
    var rest := OnlyShare(s, DoLink(s, t), t, c);
  }

  lemma MergeTotal(s: State, t: nat, bt: nat, accum: bool, c: nat)
    requires Inv(s) && CanMerge(s, t, bt) && s.threads[t].cache[bt].ctx in s.ctxs && Refs(DoMerge(s, t, bt, accum))
    requires c in s.ctxs
    ensures Total(DoMerge(s, t, bt, accum), c) == Total(s, c)
  {
    hide ThreadOk, CtxOk, Limbo, Balance, Refs, Shares, Sum, Add;
    CounterOf(s, t, bt);
    var rest := OnlyShare(s, DoMerge(s, t, bt, accum), t, c);
    Regroup(s.ctxs[c].merged, s.threads[t].cache[bt].cnts, rest);
  }

  lemma Regroup(x: Count, y: Count, z: Count)
    ensures Add(Add(x, y), Add(ZERO, z)) == Add(x, Add(y, z))
  { }

  lemma SampleTotal(s: State, t: nat, bt: nat, obj: nat, size: nat, accum: bool, c: nat)
    requires Inv(s) && CanSample(s, t, bt, obj) && Refs(DoSample(s, t, bt, obj, size, accum)) && c in s.ctxs
    ensures Total(DoSample(s, t, bt, obj, size, accum), c) ==
            Add(Total(s, c), Effect(s, Sample(t, bt, obj, size), c, accum))
  {
    hide ThreadOk, CtxOk, Limbo, Refs, Shares;
    CounterOf(s, t, bt);
    var rest := OnlyShare(s, DoSample(s, t, bt, obj, size, accum), t, c);
  }

  lemma EndFreeTotal(s: State, t: nat, c: nat)
    requires Inv(s) && CanEndFree(s, t) && Refs(DoEndFree(s, t)) && c in s.ctxs
    ensures Total(DoEndFree(s, t), c) == Add(Total(s, c), Ended(s, t, c))
  {
    hide ThreadOk, CtxOk, Limbo, Refs, Shares;
    var o := s.threads[t].freeing.value;
    ObjectCounter(s, t, o);
    CounterOf(s, t, s.ctxs[s.objects[o].ctx].bt);
    var rest := OnlyShare(s, DoEndFree(s, t), t, c);
  }

  lemma FallBackTotal(s: State, t: nat, c: nat)
    requires Inv(s) && CanFallBack(s, t) && Freeing(s, t) && Refs(DoFallBack(s, t)) && c in s.ctxs
    ensures Total(DoFallBack(s, t), c) == Add(Total(s, c), Ended(s, t, c))
  {
    hide ThreadOk, CtxOk, Limbo, Refs, Shares;
    var rest := OnlyShare(s, DoFallBack(s, t), t, c);
  }

  // The other steps move no counts.
  predicate Moves(step: Step) { step.Link? || step.Merge? || step.Sample? || step.EndFree? || step.FallBack? }

  lemma OtherTotal(s: State, step: Step, accum: bool, c: nat)
    requires Inv(s) && Enabled(s, step) && !Loses(s, step) && !Moves(step)
    requires Touched(s, step).Some? ==> Touched(s, step).value in s.ctxs
    requires Refs(Apply(s, step, accum)) && c in s.ctxs && c in Apply(s, step, accum).ctxs
    ensures Total(Apply(s, step, accum), c) == Total(s, c)
  {
    hide Limbo, Balance, Shares, Sum, Add;
    SameCaches(s, step, accum, c);
    SameShares(s, Apply(s, step, accum), c);
  }

  lemma SameCaches(s: State, step: Step, accum: bool, c: nat)
    requires Inv(s) && Enabled(s, step) && !Loses(s, step) && !Moves(step)
    requires Touched(s, step).Some? ==> Touched(s, step).value in s.ctxs
    requires c in s.ctxs && c in Apply(s, step, accum).ctxs
    ensures var s' := Apply(s, step, accum);
            && |s'.threads| == |s.threads| && s'.ctxs[c].bt == s.ctxs[c].bt && s'.ctxs[c].cnts == s.ctxs[c].cnts
            && s'.ctxs[c].merged == s.ctxs[c].merged
            && forall u :: 0 <= u < |s.threads| ==> s'.threads[u].cache == s.threads[u].cache
  {
    hide Inv, Apply, Enabled, Loses, Touched;
    if step.GiveUp? || step.CacheFails? {
      SameLooking(s, step, accum, c);
    } else {
      SameOther(s, step, accum, c);
    }
  }

  lemma SameLooking(s: State, step: Step, accum: bool, c: nat)
    requires Inv(s) && Enabled(s, step) && !Loses(s, step) && (step.GiveUp? || step.CacheFails?)
    requires Touched(s, step).Some? ==> Touched(s, step).value in s.ctxs
    requires c in s.ctxs && c in Apply(s, step, accum).ctxs
    ensures var s' := Apply(s, step, accum);
            && |s'.threads| == |s.threads| && s'.ctxs[c].bt == s.ctxs[c].bt && s'.ctxs[c].cnts == s.ctxs[c].cnts
            && s'.ctxs[c].merged == s.ctxs[c].merged
            && forall u :: 0 <= u < |s.threads| ==> s'.threads[u].cache == s.threads[u].cache
  {
    hide Inv, Add, DoMerge, DoLink, DoSample, DoEndFree, DoFallBack;
  }

  lemma SameOther(s: State, step: Step, accum: bool, c: nat)
    requires Inv(s) && Enabled(s, step) && !Loses(s, step) && !Moves(step)
    requires !step.GiveUp? && !step.CacheFails?
    requires Touched(s, step).Some? ==> Touched(s, step).value in s.ctxs
    requires c in s.ctxs && c in Apply(s, step, accum).ctxs
    ensures var s' := Apply(s, step, accum);
            && |s'.threads| == |s.threads| && s'.ctxs[c].bt == s.ctxs[c].bt && s'.ctxs[c].cnts == s.ctxs[c].cnts
            && s'.ctxs[c].merged == s.ctxs[c].merged
            && forall u :: 0 <= u < |s.threads| ==> s'.threads[u].cache == s.threads[u].cache
  {
    hide Inv, Add, DoMerge, DoLink, DoSample, DoEndFree, DoFallBack, DoGiveUp, DoCacheFails;
  }

  lemma NewTotal(s: State, step: Step, accum: bool, c: nat)
    requires Inv(s) && Enabled(s, step) && !Loses(s, step)
    requires Touched(s, step).Some? ==> Touched(s, step).value in s.ctxs
    requires Refs(Apply(s, step, accum)) && c !in s.ctxs && c in Apply(s, step, accum).ctxs
    ensures Total(Apply(s, step, accum), c) == ZERO
  {
    hide Refs, Limbo, Balance, Sum;
    ComeAndGo(s, step, c, accum);
    var s' := Apply(s, step, accum);
    assert s'.ctxs[c].cnts == {} && s'.ctxs[c].merged == ZERO;
    assert Shares(s', c) == map[];
    NoSum();
  }

  lemma AddNothing(x: Count)
    ensures Add(x, ZERO) == x
  { }

  lemma NoSum()
    ensures Sum(map[]) == ZERO
  { }

  lemma TotalStep(s: State, step: Step, accum: bool, c: nat)
    requires Inv(s) && Enabled(s, step) && !Loses(s, step)
    ensures Touched(s, step).Some? ==> Touched(s, step).value in s.ctxs
    ensures var s' := Apply(s, step, accum);
            && Refs(s')
            && (c in s.ctxs && c in s'.ctxs ==> Total(s', c) == Add(Total(s, c), Effect(s, step, c, accum)))
            && (c !in s.ctxs && c in s'.ctxs ==> Total(s', c) == ZERO)
  {
    hide Limbo, Balance, Refs, Add, Total, Loses, Ended, Holds, DoSearch, DoLink, DoGiveUp, DoMerge, DoDestroy,
         DoRelease, DoSample, DoEndFree, DoFallBack, DoInsertFails, DoCacheFails, DoDumpPrep, DoDumpDone, Live;
    StepSafe(s, step, accum);
    var s' := Apply(s, step, accum);
    if c in s.ctxs && c in s'.ctxs {
      match step
      case Link(t) =>
        LinkTotal(s, t, c);
        AddNothing(Total(s, c));
      case Merge(t, bt) =>
        MergeTotal(s, t, bt, accum, c);
        AddNothing(Total(s, c));
      case Sample(t, bt, obj, size) => SampleTotal(s, t, bt, obj, size, accum, c);
      case EndFree(t) => EndFreeTotal(s, t, c);
      case FallBack(t) => FallBackTotal(s, t, c);
      case _ =>
        OtherTotal(s, step, accum, c);
        AddNothing(Total(s, c));
    } else if c in s'.ctxs {
      NewTotal(s, step, accum, c);
    }
  }

  // Along a run.
  ghost function Effects(states: seq<State>, steps: seq<Step>, c: nat, accum: bool, i: nat, n: nat): Count
    requires i <= n <= |steps| < |states|
  {
    if n == i then ZERO
    else Add(Effects(states, steps, c, accum, i, n - 1), Effect(states[n - 1], steps[n - 1], c, accum))
  }

  // As long as a context is there, it has counted exactly the samples and ends since; from its
  // beginning on, all of them.
  lemma {:induction false} TotalRun(states: seq<State>, steps: seq<Step>, accum: bool, c: nat, i: nat, n: nat)
    requires Run(states, steps, accum) && i <= n <= |steps| && Steady(states, steps, n)
    requires forall j :: i <= j <= n ==> c in states[j].ctxs
    ensures Refs(states[i]) && Refs(states[n])
    ensures Total(states[n], c) == Add(Total(states[i], c), Effects(states, steps, c, accum, i, n))
    ensures i > 0 && c !in states[i - 1].ctxs ==> Total(states[i], c) == ZERO
  {
    hide Refs, Limbo, Balance, Enabled, Apply, Touched, Fresh, Loses, Total, Effect;
    RunSafe(states, steps, accum, n);
    RunSafe(states, steps, accum, i);
    if i > 0 {
      RunSafe(states, steps, accum, i - 1);
      assert Next(states[i - 1], steps[i - 1], states[i], accum);
      TotalStep(states[i - 1], steps[i - 1], accum, c);
    }
    if n > i {
      TotalRun(states, steps, accum, c, i, n - 1);
      RunSafe(states, steps, accum, n - 1);
      assert Next(states[n - 1], steps[n - 1], states[n], accum);
      TotalStep(states[n - 1], steps[n - 1], accum, c);
    }
  }
}
