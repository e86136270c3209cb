/**
  * Retries on the host: provisioning and deletion may be cut off after any effect and are
  * started over by the task queue. One complete attempt afterwards must leave what a single
  * uninterrupted attempt would have left, and must not touch other machines.
  */
module HostRetries {
  import opened Names
  import opened HostState

  // ---------------------------------------------------------------------------
  // Effects that later effects of the same plan leave in force

  predicate IsDeletion(e: Effect) { e.StopDomain? || e.Undefine? || e.DeleteVolume? || e.DeleteSeed? }

  /** The order in which a plan touches a seed, 0 for the other effects. */
  function SeedRank(e: Effect): nat {
    match e
    case MakeSeedDir(_) => 1 case WriteUserData(_, _) => 2 case WriteMetaData(_, _) => 3 case BuildIso(_) => 4
    case DeleteSeed(_) => 1
    case _ => 0
  }

  /** The order in which a plan touches a domain, 0 for the other effects. */
  function DomainRank(e: Effect): nat {
    match e
    case Define(_, _) => 1 case EnsureRunning(_) => 2
    case StopDomain(_) => 1 case Undefine(_) => 2
    case _ => 0
  }

  predicate MayFollow(e: Effect, f: Effect) {
    IsDeletion(e) == IsDeletion(f)
    && (SeedRank(e) > 0 && SeedRank(f) > 0 ==> SeedRank(e) < SeedRank(f))
    && (DomainRank(e) > 0 && DomainRank(f) > 0 ==> DomainRank(e) < DomainRank(f))
  }

  /** No effect of the plan undoes an earlier one. */
  predicate Calm(plan: seq<Effect>) {
    plan == [] || ((forall f :: f in plan[1..] ==> MayFollow(plan[0], f)) && Calm(plan[1..]))
  }

  /** Performing the effect again would change nothing. */
  predicate Settled(w: Outside, h: Host, e: Effect) { Step(w, h, e) == Next(h) }

  /** No domain that the plan undefines is paused. */
  ghost predicate Undefinable(h: Host, plan: seq<Effect>) {
    forall e :: e in plan && e.Undefine? ==> !InState(h, e.vm, Paused)
  }

  lemma StepNeverPauses(w: Outside, h: Host, e: Effect, vm: string)
    requires Step(w, h, e).Next? && !InState(h, vm, Paused)
    ensures !InState(Step(w, h, e).host, vm, Paused)
  {
  }

  lemma {:induction false} RunNeverPauses(w: Outside, h: Host, plan: seq<Effect>, budget: nat, vm: string)
    requires !InState(h, vm, Paused)
    ensures !InState(Run(w, h, plan, budget).host, vm, Paused)
    decreases plan
  {
    if plan != [] && budget > 0 && Step(w, h, plan[0]).Next? {
      StepNeverPauses(w, h, plan[0], vm);
      RunNeverPauses(w, Step(w, h, plan[0]).host, plan[1..], budget - 1, vm);
    }
  }

  lemma StepSettles(w: Outside, h: Host, e: Effect)
    requires Step(w, h, e).Next? && (e.Undefine? ==> !InState(h, e.vm, Paused))
    ensures Settled(w, Step(w, h, e).host, e)
  {
  }

  lemma LaterKeepsDomain(w: Outside, h: Host, e: Effect, f: Effect)
    requires DomainRank(e) > 0
    requires Settled(w, h, e) && Step(w, h, f).Next? && MayFollow(e, f)
    ensures Settled(w, Step(w, h, f).host, e)
  {
  }

  lemma LaterKeepsSeed(w: Outside, h: Host, e: Effect, f: Effect)
    requires SeedRank(e) > 0 && !e.BuildIso?
    requires Settled(w, h, e) && Step(w, h, f).Next? && MayFollow(e, f)
    ensures Settled(w, Step(w, h, f).host, e)
  {
  }

  lemma LaterKeepsImage(w: Outside, h: Host, e: Effect, f: Effect)
    requires e.BuildIso?
    requires Settled(w, h, e) && Step(w, h, f).Next? && MayFollow(e, f)
    ensures Settled(w, Step(w, h, f).host, e)
  {
  }

  lemma LaterKeepsDisk(w: Outside, h: Host, e: Effect, f: Effect)
    requires DomainRank(e) == 0 && SeedRank(e) == 0
    requires Settled(w, h, e) && Step(w, h, f).Next? && MayFollow(e, f)
    ensures Settled(w, Step(w, h, f).host, e)
  {
  }

  /** What one effect has reached, no later effect of the plan undoes. */
  lemma LaterKeeps(w: Outside, h: Host, e: Effect, f: Effect)
    requires Settled(w, h, e) && Step(w, h, f).Next? && MayFollow(e, f)
    ensures Settled(w, Step(w, h, f).host, e)
  {
    if DomainRank(e) > 0 {
      LaterKeepsDomain(w, h, e, f);
    } else if e.BuildIso? {
      LaterKeepsImage(w, h, e, f);
    } else if SeedRank(e) > 0 {
      LaterKeepsSeed(w, h, e, f);
    } else {
      LaterKeepsDisk(w, h, e, f);
    }
  }

  lemma {:induction false} RunKeepsSettled(w: Outside, h: Host, e: Effect, rest: seq<Effect>, k: nat)
    requires Settled(w, h, e) && forall f :: f in rest ==> MayFollow(e, f)
    ensures Settled(w, Run(w, h, rest, k).host, e)
    decreases rest
  {
    if rest != [] && k > 0 && Step(w, h, rest[0]).Next? {
      LaterKeeps(w, h, e, rest[0]);
      RunKeepsSettled(w, Step(w, h, rest[0]).host, e, rest[1..], k - 1);
    }
  }

  // ---------------------------------------------------------------------------
  // Convergence

  lemma StepKeepsUndefinable(w: Outside, h: Host, e: Effect, rest: seq<Effect>)
    requires Step(w, h, e).Next? && Undefinable(h, rest)
    ensures Undefinable(Step(w, h, e).host, rest)
  {
    forall f | f in rest && f.Undefine? ensures !InState(Step(w, h, e).host, f.vm, Paused) {
      StepNeverPauses(w, h, e, f.vm);
    }
  }

  /** A cut-off attempt does not change what an attempt with enough budget leads to. */
  lemma {:induction false} CutThenComplete(w: Outside, h: Host, plan: seq<Effect>, cut: nat, budget: nat)
    requires Calm(plan) && Undefinable(h, plan) && budget >= |plan|
    ensures Run(w, Run(w, h, plan, cut).host, plan, budget) == Run(w, h, plan, budget)
    decreases plan
  {
    if plan != [] && cut > 0 && Step(w, h, plan[0]).Next? {
      var e, rest, h' := plan[0], plan[1..], Step(w, h, plan[0]).host;
      StepSettles(w, h, e);
      RunKeepsSettled(w, h', e, rest, cut - 1);
      StepKeepsUndefinable(w, h, e, rest);
      CutThenComplete(w, h', rest, cut - 1, budget - 1);
    }
  }

  /** The host after a series of attempts, attempt i cut off after cuts[i] effects. */
  function Attempts(w: Outside, h: Host, plan: seq<Effect>, cuts: seq<nat>): Host
    decreases cuts
  {
    if cuts == [] then h else Attempts(w, Run(w, h, plan, cuts[0]).host, plan, cuts[1..])
  }

  lemma {:induction false} AttemptsConverge(w: Outside, h: Host, plan: seq<Effect>, cuts: seq<nat>, budget: nat)
    requires Calm(plan) && Undefinable(h, plan) && budget >= |plan|
    ensures Run(w, Attempts(w, h, plan, cuts), plan, budget) == Run(w, h, plan, budget)
    decreases cuts
  {
    if cuts != [] {
      CutThenComplete(w, h, plan, cuts[0], budget);
      forall e | e in plan && e.Undefine? ensures !InState(Run(w, h, plan, cuts[0]).host, e.vm, Paused) {
        RunNeverPauses(w, h, plan, cuts[0], e.vm);
      }
      AttemptsConverge(w, Run(w, h, plan, cuts[0]).host, plan, cuts[1..], budget);
    }
  }

  lemma {:induction false} CalmConcat(p: seq<Effect>, q: seq<Effect>)
    requires Calm(p) && Calm(q) && forall e, f :: e in p && f in q ==> MayFollow(e, f)
    ensures Calm(p + q)
  {
    if p == [] {
      assert p + q == q;
    } else {
      assert (p + q)[1..] == p[1..] + q;
      CalmConcat(p[1..], q);
    }
  }

  /** Template and volume steps: free of order, they never disturb each other. */
  predicate DiskEffect(e: Effect) { e.Template? || e.CreateVolume? || e.Reject? }

  lemma {:induction false} DiskPlanEffects(w: Outside, disks: seq<DiskReq>, i: nat)
    ensures forall e :: e in DiskPlan(w, disks, i) ==> DiskEffect(e)
    ensures Calm(DiskPlan(w, disks, i))
    decreases disks
  {
    if disks != [] {
      DiskPlanEffects(w, disks[1..], i + 1);
      var p := DiskSteps(w, disks[0], i);
      assert |p| > 0 ==> Calm(p[1..]);
      CalmConcat(p, DiskPlan(w, disks[1..], i + 1));
    }
  }

  lemma CalmPair(e: Effect, f: Effect)
    requires MayFollow(e, f)
    ensures Calm([e, f])
  {
    assert Calm([f]) && [e, f][1..] == [f];
  }

  lemma SeedPlanCalm(w: Outside, req: CreateReq)
    ensures Calm(SeedPlan(w, req))
  {
    var p := SeedPlan(w, req);
    CalmPair(p[0], p[1]);
    CalmPair(p[2], p[3]);
    CalmConcat(p[..2], p[2..]);
    assert p[..2] == [p[0], p[1]] && p[2..] == [p[2], p[3]] && p == p[..2] + p[2..];
  }

  lemma TailPlanCalm(w: Outside, req: CreateReq)
    ensures Calm(TailPlan(w, req))
  {
    if |req.disks| <= MAX_DISKS {
      var last :=
        if NicsAccepted(w, req.nics) then [Define(req.name, SpecOf(w, req)), EnsureRunning(req.name)] else [Reject];
      SeedPlanCalm(w, req);
      if NicsAccepted(w, req.nics) { CalmPair(last[0], last[1]); }
      CalmConcat(SeedPlan(w, req), last);
    }
  }

  lemma TailPlanEffects(w: Outside, req: CreateReq)
    ensures forall e :: e in TailPlan(w, req) ==> !IsDeletion(e)
  {
  }

  lemma CreatePlanCalm(w: Outside, req: CreateReq)
    ensures Calm(CreatePlan(w, req))
  {
    if HeadAccepted(req) {
      DiskPlanEffects(w, req.disks, 0);
      TailPlanCalm(w, req);
      TailPlanEffects(w, req);
      CalmConcat(DiskPlan(w, req.disks, 0), TailPlan(w, req));
    }
  }

  lemma {:induction false} DeleteVolumesCalm(vm: string, i: nat)
    requires i <= MAX_DISKS
    ensures forall e :: e in DeleteVolumes(vm, i) ==> e.DeleteVolume?
    ensures Calm(DeleteVolumes(vm, i))
    decreases MAX_DISKS - i
  {
    if i < MAX_DISKS {
      DeleteVolumesCalm(vm, i + 1);
      assert DeleteVolumes(vm, i)[1..] == DeleteVolumes(vm, i + 1);
    }
  }

  lemma DeletePlanEffects(vm: string)
    ensures Calm(DeleteRest(vm))
    ensures forall e :: e in DeleteRest(vm) ==> e.DeleteVolume? || e == DeleteSeed(vm)
  {
    DeleteVolumesCalm(vm, 0);
    CalmConcat(DeleteVolumes(vm, 0), [DeleteSeed(vm)]);
  }

  function DeleteStart(vm: string): seq<Effect> { [StopDomain(vm), Undefine(vm)] }

  function DeleteRest(vm: string): seq<Effect> { DeleteVolumes(vm, 0) + [DeleteSeed(vm)] }

  lemma DeletePlanParts(vm: string)
    requires ValidName(vm)
    ensures DeletePlan(vm) == DeleteStart(vm) + DeleteRest(vm)
  {
  }

  lemma DeleteOrder(vm: string, e: Effect, f: Effect)
    requires e in DeleteStart(vm) && (f.DeleteVolume? || f == DeleteSeed(vm))
    ensures MayFollow(e, f)
  {
  }

  lemma DeletePlanCalm(vm: string)
    ensures Calm(DeletePlan(vm))
  {
    if ValidName(vm) {
      DeletePlanEffects(vm);
      DeletePlanParts(vm);
      CalmPair(StopDomain(vm), Undefine(vm));
      forall e, f | e in DeleteStart(vm) && f in DeleteRest(vm) ensures MayFollow(e, f) { DeleteOrder(vm, e, f); }
      CalmConcat(DeleteStart(vm), DeleteRest(vm));
    }
  }

  lemma OnlyUndefine(vm: string, e: Effect)
    requires ValidName(vm) && e in DeletePlan(vm) && e.Undefine?
    ensures e == Undefine(vm)
  {
    DeletePlanParts(vm);
    DeletePlanEffects(vm);
    assert e in DeleteStart(vm) || e in DeleteRest(vm);
  }

  lemma DeletePlanUndefines(h: Host, vm: string)
    requires !InState(h, vm, Paused)
    ensures Undefinable(h, DeletePlan(vm))
  {
    forall e | e in DeletePlan(vm) && e.Undefine? ensures !InState(h, e.vm, Paused) {
      if ValidName(vm) { OnlyUndefine(vm, e); }
    }
  }

  lemma CreatePlanUndefinesNothing(w: Outside, h: Host, req: CreateReq)
    ensures Undefinable(h, CreatePlan(w, req))
  {
    DiskPlanEffects(w, req.disks, 0);
    TailPlanEffects(w, req);
  }

  /** Provisioning converges: from any host state and after any series of attempts cut off
    * anywhere, a complete attempt ends in the host and the answer of one uninterrupted attempt. */
  lemma ProvisionConverges(w: Outside, h: Host, req: CreateReq, cuts: seq<nat>, budget: nat)
    requires budget >= |CreatePlan(w, req)|
    ensures Run(w, Attempts(w, h, CreatePlan(w, req), cuts), CreatePlan(w, req), budget)
         == Run(w, h, CreatePlan(w, req), budget)
  {
    CreatePlanCalm(w, req);
    CreatePlanUndefinesNothing(w, h, req);
    AttemptsConverge(w, h, CreatePlan(w, req), cuts, budget);
  }

  /** Deletion converges in the same sense unless the domain is paused. */
  lemma DeletionConverges(w: Outside, h: Host, vm: string, cuts: seq<nat>, budget: nat)
    requires !InState(h, vm, Paused) && budget >= |DeletePlan(vm)|
    ensures Run(w, Attempts(w, h, DeletePlan(vm), cuts), DeletePlan(vm), budget) == Run(w, h, DeletePlan(vm), budget)
  {
    DeletePlanCalm(vm);
    DeletePlanUndefines(h, vm);
    AttemptsConverge(w, h, DeletePlan(vm), cuts, budget);
  }
}
