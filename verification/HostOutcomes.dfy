/**
  * What complete and interrupted attempts do to a host: when provisioning succeeds and what it
  * leaves, that deletion undoes it, and that the artifacts of other machines never change.
  */
module HostOutcomes {
  import opened Basics
  import opened Names
  import opened HostState
  import opened HostRetries

  // ---------------------------------------------------------------------------
  // Everything that does not belong to one machine

  ghost function DiskNames(vm: string): set<string> { set i | 0 <= i < MAX_DISKS :: DiskName(vm, i) }

  datatype Rest = Rest(volumes: map<string, Volume>, seeds: map<string, Seed>, domains: map<string, Domain>)

  ghost function RestOf(h: Host, vm: string): Rest {
    Rest(h.volumes - DiskNames(vm), h.seeds - {vm}, h.domains - {vm})
  }

  /** The panel sends only disk names of the convention, in no particular order. */
  ghost predicate Convention(req: CreateReq) { forall d :: d in req.disks ==> d.name in DiskNames(req.name) }

  ghost predicate Own(vm: string, e: Effect) {
    match e
    case Reject => true
    case Template(_, _) => true
    case CreateVolume(d, _) => d in DiskNames(vm)
    case DeleteVolume(d) => d in DiskNames(vm)
    case _ => e.vm == vm
  }

  /** Cached templates are never dropped or replaced. */
  ghost predicate TemplatesKept(h: Host, h': Host) {
    forall t :: t in h.templates ==> t in h'.templates && h'.templates[t] == h.templates[t]
  }

  ghost predicate NotPaused(h: Host, vm: string) { !InState(h, vm, Paused) && !InState(h, vm, Transient) }

  lemma StepRest(w: Outside, h: Host, vm: string, e: Effect)
    requires Own(vm, e) && Step(w, h, e).Next?
    ensures RestOf(Step(w, h, e).host, vm) == RestOf(h, vm)
  {
    StepVolumes(w, h, vm, e);
    StepSeeds(w, h, vm, e);
    StepDomains(w, h, vm, e);
  }

  lemma StepVolumes(w: Outside, h: Host, vm: string, e: Effect)
    requires Own(vm, e) && Step(w, h, e).Next?
    ensures Step(w, h, e).host.volumes - DiskNames(vm) == h.volumes - DiskNames(vm)
  {
  }

  lemma StepSeeds(w: Outside, h: Host, vm: string, e: Effect)
    requires Own(vm, e) && Step(w, h, e).Next?
    ensures Step(w, h, e).host.seeds - {vm} == h.seeds - {vm}
  {
  }

  lemma StepDomains(w: Outside, h: Host, vm: string, e: Effect)
    requires Own(vm, e) && Step(w, h, e).Next?
    ensures Step(w, h, e).host.domains - {vm} == h.domains - {vm}
  {
  }

  lemma StepTemplates(w: Outside, h: Host, e: Effect)
    requires Step(w, h, e).Next?
    ensures TemplatesKept(h, Step(w, h, e).host)
  {
  }

  lemma StepNotPaused(w: Outside, h: Host, vm: string, e: Effect)
    requires Step(w, h, e).Next? && NotPaused(h, vm)
    ensures NotPaused(Step(w, h, e).host, vm)
  {
  }

  lemma StepOwn(w: Outside, h: Host, vm: string, e: Effect)
    requires Own(vm, e) && Step(w, h, e).Next?
    ensures var h' := Step(w, h, e).host;
      RestOf(h', vm) == RestOf(h, vm) && TemplatesKept(h, h') && (NotPaused(h, vm) ==> NotPaused(h', vm))
  {
    StepRest(w, h, vm, e);
    StepTemplates(w, h, e);
    if NotPaused(h, vm) { StepNotPaused(w, h, vm, e); }
  }

  lemma {:induction false} RunOwn(w: Outside, h: Host, vm: string, plan: seq<Effect>, budget: nat)
    requires forall e :: e in plan ==> Own(vm, e)
    ensures var h' := Run(w, h, plan, budget).host;
      RestOf(h', vm) == RestOf(h, vm) && TemplatesKept(h, h') && (NotPaused(h, vm) ==> NotPaused(h', vm))
    decreases plan
  {
    if plan != [] && budget > 0 && Step(w, h, plan[0]).Next? {
      StepOwn(w, h, vm, plan[0]);
      RunOwn(w, Step(w, h, plan[0]).host, vm, plan[1..], budget - 1);
    }
  }

  lemma {:induction false} DiskPlanOwn(w: Outside, vm: string, disks: seq<DiskReq>, i: nat)
    requires forall d :: d in disks ==> d.name in DiskNames(vm)
    ensures forall e :: e in DiskPlan(w, disks, i) ==> Own(vm, e)
    decreases disks
  {
    if disks != [] {
      assert disks[0] in disks;
      DiskPlanOwn(w, vm, disks[1..], i + 1);
      assert forall e :: e in DiskSteps(w, disks[0], i) ==> Own(vm, e);
    }
  }

  lemma CreatePlanOwn(w: Outside, req: CreateReq)
    requires Convention(req)
    ensures forall e :: e in CreatePlan(w, req) ==> Own(req.name, e)
  {
    DiskPlanOwn(w, req.name, req.disks, 0);
    assert forall e :: e in TailPlan(w, req) ==> Own(req.name, e);
  }

  lemma {:induction false} DeleteVolumesOwn(vm: string, i: nat)
    requires i <= MAX_DISKS
    ensures forall e :: e in DeleteVolumes(vm, i) ==> Own(vm, e)
    decreases MAX_DISKS - i
  {
    if i < MAX_DISKS {
      DeleteVolumesOwn(vm, i + 1);
      assert DiskName(vm, i) in DiskNames(vm);
    }
  }

  lemma DeletePlanOwn(vm: string)
    ensures forall e :: e in DeletePlan(vm) ==> Own(vm, e)
  {
    DeleteVolumesOwn(vm, 0);
  }

  // ---------------------------------------------------------------------------
  // Other machines

  ghost predicate Agree<V>(m: map<string, V>, m': map<string, V>, k: string) {
    (k in m <==> k in m') && (k in m ==> m[k] == m'[k])
  }

  ghost predicate SameMachine(h: Host, h': Host, vm: string) {
    Agree(h.domains, h'.domains, vm) && Agree(h.seeds, h'.seeds, vm)
    && forall i :: 0 <= i < MAX_DISKS ==> Agree(h.volumes, h'.volumes, DiskName(vm, i))
  }

  lemma AgreeOutside<V>(m: map<string, V>, m': map<string, V>, ks: set<string>, k: string)
    requires m - ks == m' - ks && k !in ks
    ensures Agree(m, m', k)
  {
    assert k in m <==> k in m - ks;
    assert k in m' <==> k in m' - ks;
    assert k in m ==> (m - ks)[k] == m[k];
    assert k in m' ==> (m' - ks)[k] == m'[k];
  }

  lemma RestCoversOthers(h: Host, h': Host, vm: string, other: string)
    requires RestOf(h, vm) == RestOf(h', vm) && other != vm
    ensures SameMachine(h, h', other)
  {
    AgreeOutside(h.domains, h'.domains, {vm}, other);
    AgreeOutside(h.seeds, h'.seeds, {vm}, other);
    forall i | 0 <= i < MAX_DISKS ensures Agree(h.volumes, h'.volumes, DiskName(other, i)) {
      var d := DiskName(other, i);
      if d in DiskNames(vm) {
        var j :| 0 <= j < MAX_DISKS && d == DiskName(vm, j);
        DiskNameInjective(other, i, vm, j);
      }
      AgreeOutside(h.volumes, h'.volumes, DiskNames(vm), d);
    }
  }

  /** Provisioning one machine, cut off anywhere, leaves every other machine alone. */
  lemma ProvisionFrame(w: Outside, h: Host, req: CreateReq, budget: nat, other: string)
    requires Convention(req) && other != req.name
    ensures SameMachine(h, Run(w, h, CreatePlan(w, req), budget).host, other)
  {
    CreatePlanOwn(w, req);
    RunOwn(w, h, req.name, CreatePlan(w, req), budget);
    RestCoversOthers(h, Run(w, h, CreatePlan(w, req), budget).host, req.name, other);
  }

  /** Deleting one machine, cut off anywhere, leaves every other machine alone. */
  lemma DeletionFrame(w: Outside, h: Host, vm: string, budget: nat, other: string)
    requires other != vm
    ensures SameMachine(h, Run(w, h, DeletePlan(vm), budget).host, other)
  {
    DeletePlanOwn(vm);
    RunOwn(w, h, vm, DeletePlan(vm), budget);
    RestCoversOthers(h, Run(w, h, DeletePlan(vm), budget).host, vm, other);
  }

  // ---------------------------------------------------------------------------
  // Deletion

  lemma {:induction false} DeleteVolumesRun(w: Outside, h: Host, vm: string, i: nat, budget: nat)
    requires i <= MAX_DISKS && budget >= |DeleteVolumes(vm, i)|
    ensures |DeleteVolumes(vm, i)| == MAX_DISKS - i
    ensures Run(w, h, DeleteVolumes(vm, i), budget)
         == Progress(h.(volumes := h.volumes - (set j | i <= j < MAX_DISKS :: DiskName(vm, j))),
                     budget - (MAX_DISKS - i), None)
    decreases MAX_DISKS - i
  {
    var gone := set j | i <= j < MAX_DISKS :: DiskName(vm, j);
    if i == MAX_DISKS {
      assert h.volumes - gone == h.volumes;
    } else {
      var h' := h.(volumes := h.volumes - {DiskName(vm, i)});
      DeleteVolumesRun(w, h', vm, i + 1, budget - 1);
      var later := set j | i + 1 <= j < MAX_DISKS :: DiskName(vm, j);
      assert gone == {DiskName(vm, i)} + later;
      assert h'.volumes - later == h.volumes - gone;
    }
  }

  function Removed(h: Host, domains: map<string, Domain>, gone: set<string>, vm: string): Host {
    Host(h.templates, h.volumes - gone, h.seeds - {vm}, domains)
  }

  ghost function DomainsLeft(h: Host, vm: string): map<string, Domain> {
    if InState(h, vm, Paused) then h.domains[vm := h.domains[vm].(state := Transient)] else h.domains - {vm}
  }

  /** Everything but the seed. */
  lemma DomainAndVolumesRun(w: Outside, h: Host, vm: string, budget: nat)
    requires !InState(h, vm, Transient) && budget >= 2 + MAX_DISKS
    ensures Run(w, h, [StopDomain(vm), Undefine(vm)] + DeleteVolumes(vm, 0), budget)
         == Progress(h.(domains := DomainsLeft(h, vm), volumes := h.volumes - DiskNames(vm)),
                     budget - 2 - MAX_DISKS, None)
  {
    DeleteVolumesLength(vm, 0);
    RunAppend(w, h, [StopDomain(vm), Undefine(vm)], DeleteVolumes(vm, 0), budget);
    FirstSteps(w, h, vm, budget);
    DeleteVolumesRun(w, h.(domains := DomainsLeft(h, vm)), vm, 0, budget - 2);
  }

  lemma DeletionRun(w: Outside, h: Host, vm: string, budget: nat)
    requires ValidName(vm) && !InState(h, vm, Transient) && budget >= |DeletePlan(vm)|
    ensures Run(w, h, DeletePlan(vm), budget)
         == Progress(Removed(h, DomainsLeft(h, vm), DiskNames(vm), vm), budget - 3 - MAX_DISKS, None)
  {
    DeleteVolumesLength(vm, 0);
    DomainAndVolumesRun(w, h, vm, budget);
    var h' := h.(domains := DomainsLeft(h, vm), volumes := h.volumes - DiskNames(vm));
    RunAppend(w, h, [StopDomain(vm), Undefine(vm)] + DeleteVolumes(vm, 0), [DeleteSeed(vm)], budget);
    RunOne(w, h', DeleteSeed(vm), budget - 2 - MAX_DISKS);
  }

  lemma TransientRun(w: Outside, h: Host, vm: string, budget: nat)
    requires ValidName(vm) && InState(h, vm, Transient) && budget >= 2
    ensures Run(w, h, DeletePlan(vm), budget) == Progress(h, budget - 2, Some(ServerError))
  {
    DeletePlanParts(vm);
    RunAppend(w, h, DeleteStart(vm), DeleteRest(vm), budget);
    RunTwo(w, h, StopDomain(vm), Undefine(vm), budget);
    RunOne(w, h, Undefine(vm), budget - 1);
  }

  /** A complete deletion succeeds exactly unless the domain is transient, and then changes
    * nothing; else it removes the volumes and the seed, and the domain exactly unless it was
    * paused, which leaves it behind transient. */
  lemma DeletionOutcome(w: Outside, h: Host, vm: string, budget: nat)
    requires ValidName(vm) && budget >= |DeletePlan(vm)|
    ensures var r := Run(w, h, DeletePlan(vm), budget);
      && (r.status == None <==> !InState(h, vm, Transient))
      && (r.status != None ==> r.status == Some(ServerError) && r.host == h)
      && (r.status == None ==>
            && r.host.templates == h.templates
            && r.host.volumes == h.volumes - DiskNames(vm)
            && r.host.seeds == h.seeds - {vm}
            && r.host.domains - {vm} == h.domains - {vm}
            && (vm in r.host.domains <==> InState(h, vm, Paused))
            && (vm in r.host.domains ==> InState(r.host, vm, Transient)))
  {
    if InState(h, vm, Transient) {
      DeletePlanLength(vm);
      TransientRun(w, h, vm, budget);
    } else {
      DeletionRun(w, h, vm, budget);
      assert DomainsLeft(h, vm) - {vm} == h.domains - {vm};
    }
  }

  lemma DeletePlanLength(vm: string)
    requires ValidName(vm)
    ensures |DeletePlan(vm)| == 3 + MAX_DISKS
  {
    DeleteVolumesLength(vm, 0);
  }

  /** A deletion cut off after its first two effects. */
  lemma CutAfterUndefine(w: Outside, h: Host, vm: string)
    requires ValidName(vm) && !InState(h, vm, Transient)
    ensures Run(w, h, DeletePlan(vm), 2) == Progress(h.(domains := DomainsLeft(h, vm)), 0, Some(Interrupted))
  {
    DeletePlanParts(vm);
    RunAppend(w, h, DeleteStart(vm), DeleteRest(vm), 2);
    FirstSteps(w, h, vm, 2);
  }

  /** However a series of deletions is cut off, the complete one ends as if uninterrupted. */
  ghost predicate DeletionRetriable(w: Outside, h: Host, vm: string, budget: nat) {
    forall cuts: seq<nat> ::
      Run(w, Attempts(w, h, DeletePlan(vm), cuts), DeletePlan(vm), budget) == Run(w, h, DeletePlan(vm), budget)
  }

  /** Retrying a deletion is safe exactly unless the domain is paused: then an interrupted attempt
    * leaves it transient, and every later one fails with the volumes still there. */
  lemma DeletionRetriableIff(w: Outside, h: Host, vm: string, budget: nat)
    requires ValidName(vm) && budget >= |DeletePlan(vm)|
    ensures DeletionRetriable(w, h, vm, budget) <==> !InState(h, vm, Paused)
  {
    if InState(h, vm, Paused) {
      DeletePlanLength(vm);
      CutAfterUndefine(w, h, vm);
      var h' := h.(domains := DomainsLeft(h, vm));
      assert Attempts(w, h, DeletePlan(vm), [2]) == Attempts(w, h', DeletePlan(vm), [2][1..]) == h';
      TransientRun(w, h', vm, budget);
      DeletionRun(w, h, vm, budget);
      assert Run(w, Attempts(w, h, DeletePlan(vm), [2]), DeletePlan(vm), budget).status == Some(ServerError);
    } else {
      forall cuts: seq<nat>
        ensures Run(w, Attempts(w, h, DeletePlan(vm), cuts), DeletePlan(vm), budget)
             == Run(w, h, DeletePlan(vm), budget)
      {
        DeletionConverges(w, h, vm, cuts, budget);
      }
    }
  }

  lemma {:induction false} DeleteVolumesLength(vm: string, i: nat)
    requires i <= MAX_DISKS
    ensures |DeleteVolumes(vm, i)| == MAX_DISKS - i
    decreases MAX_DISKS - i
  {
    if i < MAX_DISKS { DeleteVolumesLength(vm, i + 1); }
  }

  lemma FirstSteps(w: Outside, h: Host, vm: string, budget: nat)
    requires !InState(h, vm, Transient) && budget >= 2
    ensures Run(w, h, [StopDomain(vm), Undefine(vm)], budget)
         == Progress(h.(domains := DomainsLeft(h, vm)), budget - 2, None)
  {
    var h1 := Step(w, h, StopDomain(vm)).host;
    RunTwo(w, h, StopDomain(vm), Undefine(vm), budget);
    RunOne(w, h1, Undefine(vm), budget - 1);
    StopThenUndefine(w, h, vm);
  }

  lemma StopThenUndefine(w: Outside, h: Host, vm: string)
    requires !InState(h, vm, Transient)
    ensures Step(w, h, StopDomain(vm)).Next?
    ensures Step(w, Step(w, h, StopDomain(vm)).host, Undefine(vm)) == Next(h.(domains := DomainsLeft(h, vm)))
  {
    var h2 := Step(w, Step(w, h, StopDomain(vm)).host, Undefine(vm)).host;
    assert h2.domains == DomainsLeft(h, vm);
  }

  datatype Attempt = Provision(req: CreateReq, cut: nat) | Deletion(cut: nat)

  /** The host after a history of interrupted attempts on one machine. */
  function History(w: Outside, h: Host, vm: string, attempts: seq<Attempt>): Host
    decreases attempts
  {
    if attempts == [] then h
    else
      var plan := if attempts[0].Provision? then CreatePlan(w, attempts[0].req) else DeletePlan(vm);
      History(w, Run(w, h, plan, attempts[0].cut).host, vm, attempts[1..])
  }

  ghost predicate For(vm: string, a: Attempt) { a.Provision? ==> a.req.name == vm && Convention(a.req) }

  lemma {:induction false} HistoryOwn(w: Outside, h: Host, vm: string, attempts: seq<Attempt>)
    requires forall a :: a in attempts ==> For(vm, a)
    ensures var h' := History(w, h, vm, attempts);
      RestOf(h', vm) == RestOf(h, vm) && TemplatesKept(h, h') && (NotPaused(h, vm) ==> NotPaused(h', vm))
    decreases attempts
  {
    if attempts != [] {
      var a := attempts[0];
      assert For(vm, a);
      var plan := if a.Provision? then CreatePlan(w, a.req) else DeletePlan(vm);
      if a.Provision? { CreatePlanOwn(w, a.req); } else { DeletePlanOwn(vm); }
      RunOwn(w, h, vm, plan, a.cut);
      HistoryOwn(w, Run(w, h, plan, a.cut).host, vm, attempts[1..]);
    }
  }

  ghost predicate NoArtifacts(h: Host, vm: string) {
    vm !in h.domains && vm !in h.seeds && h.volumes.Keys !! DiskNames(vm)
  }

  lemma RestIsAll(h: Host, g: Host, vm: string)
    requires NoArtifacts(h, vm) && RestOf(g, vm) == RestOf(h, vm)
    ensures g.domains - {vm} == h.domains && g.seeds - {vm} == h.seeds && g.volumes - DiskNames(vm) == h.volumes
  {
    assert h.domains - {vm} == h.domains && h.seeds - {vm} == h.seeds && h.volumes - DiskNames(vm) == h.volumes;
  }

  /** Deletion undoes provisioning: after any history of provisionings and deletions, complete
    * or cut off anywhere, one complete deletion restores domains, volumes and seeds. */
  lemma DeletionUndoesProvisioning(w: Outside, h: Host, vm: string, attempts: seq<Attempt>, budget: nat)
    requires ValidName(vm) && NoArtifacts(h, vm) && budget >= |DeletePlan(vm)|
    requires forall a :: a in attempts ==> For(vm, a)
    ensures var r := Run(w, History(w, h, vm, attempts), DeletePlan(vm), budget);
      && r.status == None
      && r.host.domains == h.domains && r.host.volumes == h.volumes && r.host.seeds == h.seeds
      && TemplatesKept(h, r.host)
  {
    var g := History(w, h, vm, attempts);
    HistoryOwn(w, h, vm, attempts);
    DeletedRest(w, g, vm, budget);
    RestIsAll(h, g, vm);
  }

  lemma DeletedRest(w: Outside, g: Host, vm: string, budget: nat)
    requires ValidName(vm) && budget >= |DeletePlan(vm)| && NotPaused(g, vm)
    ensures var r := Run(w, g, DeletePlan(vm), budget);
      && r.status == None && r.host.templates == g.templates
      && r.host.domains == g.domains - {vm} && r.host.seeds == g.seeds - {vm}
      && r.host.volumes == g.volumes - DiskNames(vm)
  {
    DeletionOutcome(w, g, vm, budget);
    var r := Run(w, g, DeletePlan(vm), budget);
    assert vm !in r.host.domains ==> r.host.domains == r.host.domains - {vm};
  }

  // ---------------------------------------------------------------------------
  // Provisioning

  predicate DisksAccepted(disks: seq<DiskReq>, i: nat) {
    disks == [] || (DiskAccepted(disks[0], i) && DisksAccepted(disks[1..], i + 1))
  }

  /** Every template is cached, was fetched for an earlier disk, or can be downloaded. */
  predicate TemplatesObtainable(w: Outside, cached: set<string>, disks: seq<DiskReq>)
    decreases disks
  {
    if disks == [] then true
    else if disks[0].templateUrl == "" then TemplatesObtainable(w, cached, disks[1..])
    else (w.cacheFile(disks[0].templateUrl) in cached || Downloadable(w, disks[0].templateUrl, disks[0].templateSha))
         && TemplatesObtainable(w, cached + {w.cacheFile(disks[0].templateUrl)}, disks[1..])
  }

  ghost predicate FirstOfName(disks: seq<DiskReq>, i: nat)
    requires i < |disks|
  {
    forall j :: 0 <= j < i ==> disks[j].name != disks[i].name
  }

  /** The volumes of the disks exist; those that were missing have the requested shape, the
    * first request for a name deciding; all others are as before. */
  ghost predicate VolumesAdded(
      w: Outside, before: map<string, Volume>, after: map<string, Volume>, disks: seq<DiskReq>)
  {
    && after.Keys == before.Keys + (set d | d in disks :: d.name)
    && (forall v :: v in before ==> after[v] == before[v])
    && (forall i :: (0 <= i < |disks| && disks[i].name !in before && FirstOfName(disks, i)) ==>
          IsFor(w, after[disks[i].name], disks[i]))
  }

  /** The volume has the requested size and, if the request names a template, the cached file of
    * this template as its backing. */
  ghost predicate IsFor(w: Outside, volume: Volume, d: DiskReq) {
    && volume.sizeGb == d.sizeGb
    && (d.templateUrl == "" ==> volume.backing == None)
    && (d.templateUrl != "" ==> volume.backing == Some(w.cacheFile(d.templateUrl)))
  }

  predicate TemplateObtainable(w: Outside, h: Host, d: DiskReq) {
    d.templateUrl == "" || w.cacheFile(d.templateUrl) in h.templates || Downloadable(w, d.templateUrl, d.templateSha)
  }

  function PutIfAbsent<V>(m: map<string, V>, k: string, v: V): map<string, V> { if k in m then m else m[k := v] }

  lemma DiskStepsRun(w: Outside, h: Host, d: DiskReq, i: nat, budget: nat)
    requires budget >= |DiskSteps(w, d, i)|
    ensures var r := Run(w, h, DiskSteps(w, d, i), budget);
      && (r.status.None? <==> DiskAccepted(d, i) && TemplateObtainable(w, h, d))
      && (r.status.None? ==>
            r.host.templates.Keys == h.templates.Keys
              + (if d.templateUrl == "" then {} else {w.cacheFile(d.templateUrl)}))
      && (r.status.None? ==>
            r.host == h.(templates := r.host.templates, volumes := PutIfAbsent(h.volumes, d.name, VolumeOf(w, d))))
      && (r.status.None? ==> r.budget == budget - |DiskSteps(w, d, i)|)
  {
    var volume := CreateVolume(d.name, VolumeOf(w, d));
    if !DiskAccepted(d, i) {
      RunOne(w, h, Reject, budget);
    } else if d.templateUrl == "" {
      RunOne(w, h, volume, budget);
    } else {
      var template := Template(d.templateUrl, d.templateSha);
      RunTwo(w, h, template, volume, budget);
      if Step(w, h, template).Next? { RunOne(w, Step(w, h, template).host, volume, budget - 1); }
    }
  }

  lemma FirstOfRest(disks: seq<DiskReq>, i: nat)
    requires 0 < i < |disks| && FirstOfName(disks, i)
    ensures disks[0].name != disks[i].name && FirstOfName(disks[1..], i - 1)
  {
    assert forall j :: 0 <= j < |disks| - 1 ==> disks[1..][j] == disks[j + 1];
  }

  lemma NamesOfFirst(disks: seq<DiskReq>)
    requires disks != []
    ensures (set x | x in disks :: x.name) == {disks[0].name} + (set x | x in disks[1..] :: x.name)
  {
    assert disks == [disks[0]] + disks[1..];
  }

  /** The request that decides the shape of a missing volume decides it among the later requests
    * too, unless it is the first. */
  lemma ShapeStep(
      w: Outside, before: map<string, Volume>, after: map<string, Volume>, disks: seq<DiskReq>, i: nat)
    requires i < |disks| && disks[i].name !in before && FirstOfName(disks, i)
    requires VolumesAdded(w, PutIfAbsent(before, disks[0].name, VolumeOf(w, disks[0])), after, disks[1..])
    ensures disks[i].name in after && IsFor(w, after[disks[i].name], disks[i])
  {
    var mid := PutIfAbsent(before, disks[0].name, VolumeOf(w, disks[0]));
    if i > 0 {
      FirstOfRest(disks, i);
      ShapeOf(w, mid, after, disks[1..], i - 1);
    } else {
      assert disks[0].name in mid && after[disks[0].name] == mid[disks[0].name];
    }
  }

  lemma ShapeOf(w: Outside, before: map<string, Volume>, after: map<string, Volume>, disks: seq<DiskReq>, i: nat)
    requires VolumesAdded(w, before, after, disks)
    requires i < |disks| && disks[i].name !in before && FirstOfName(disks, i)
    ensures disks[i].name in after && IsFor(w, after[disks[i].name], disks[i])
  {
    assert disks[i] in disks;
  }

  lemma VolumesAddedKeys(w: Outside, before: map<string, Volume>, after: map<string, Volume>, disks: seq<DiskReq>)
    requires disks != []
    requires VolumesAdded(w, PutIfAbsent(before, disks[0].name, VolumeOf(w, disks[0])), after, disks[1..])
    ensures after.Keys == before.Keys + (set d | d in disks :: d.name)
    ensures forall v :: v in before ==> after[v] == before[v]
  {
    var mid := PutIfAbsent(before, disks[0].name, VolumeOf(w, disks[0]));
    NamesOfFirst(disks);
    assert mid.Keys == before.Keys + {disks[0].name};
  }

  lemma VolumesAddedStep(w: Outside, before: map<string, Volume>, after: map<string, Volume>, disks: seq<DiskReq>)
    requires disks != []
    requires VolumesAdded(w, PutIfAbsent(before, disks[0].name, VolumeOf(w, disks[0])), after, disks[1..])
    ensures VolumesAdded(w, before, after, disks)
  {
    VolumesAddedKeys(w, before, after, disks);
    forall i | 0 <= i < |disks| && disks[i].name !in before && FirstOfName(disks, i)
      ensures IsFor(w, after[disks[i].name], disks[i])
    {
      ShapeStep(w, before, after, disks, i);
    }
  }

  lemma {:induction false} DiskPlanRun(w: Outside, h: Host, disks: seq<DiskReq>, i: nat, budget: nat)
    requires budget >= |DiskPlan(w, disks, i)|
    ensures var r := Run(w, h, DiskPlan(w, disks, i), budget);
      && (r.status.None? <==> DisksAccepted(disks, i) && TemplatesObtainable(w, h.templates.Keys, disks))
      && (r.status.None? ==>
            && r.host.seeds == h.seeds && r.host.domains == h.domains
            && VolumesAdded(w, h.volumes, r.host.volumes, disks)
            && r.budget == budget - |DiskPlan(w, disks, i)|)
    decreases disks
  {
    if disks != [] {
      var first := DiskSteps(w, disks[0], i);
      DiskStepsRun(w, h, disks[0], i, budget);
      RunAppend(w, h, first, DiskPlan(w, disks[1..], i + 1), budget);
      var r := Run(w, h, first, budget);
      if r.status.None? {
        DiskPlanRun(w, r.host, disks[1..], i + 1, r.budget);
        if disks[0].templateUrl == "" { assert r.host.templates.Keys == h.templates.Keys; }
        var r' := Run(w, r.host, DiskPlan(w, disks[1..], i + 1), r.budget);
        if r'.status.None? { VolumesAddedStep(w, h.volumes, r'.host.volumes, disks); }
      }
    }
  }

  function BuiltSeed(w: Outside, req: CreateReq): Seed {
    Seed(Some(UserDataOf(w, req)), Some(MetaDataOf(req)), Some((UserDataOf(w, req), MetaDataOf(req))))
  }

  lemma RunPair(w: Outside, h: Host, e: Effect, f: Effect, budget: nat)
    requires budget >= 2 && Step(w, h, e).Next? && Step(w, Step(w, h, e).host, f).Next?
    ensures Run(w, h, [e, f], budget) == Progress(Step(w, Step(w, h, e).host, f).host, budget - 2, None)
  {
    RunTwo(w, h, e, f, budget);
    RunOne(w, Step(w, h, e).host, f, budget - 1);
  }

  /** The four seed effects, one after the other. */
  lemma SeedTexts(w: Outside, h: Host, req: CreateReq)
    ensures var p := SeedPlan(w, req);
      && Step(w, h, p[0]).Next?
      && var h1 := Step(w, h, p[0]).host;
      && Step(w, h1, p[1]).Next?
      && var h2 := Step(w, h1, p[1]).host;
      && Step(w, h2, p[2]).Next?
      && var h3 := Step(w, h2, p[2]).host;
      && Step(w, h3, p[3]) == Next(SetSeed(h, req.name, BuiltSeed(w, req)))
  {
    var p := SeedPlan(w, req);
    var h3 := Step(w, Step(w, Step(w, h, p[0]).host, p[1]).host, p[2]).host;
    assert Step(w, h3, p[3]).host.seeds == h.seeds[req.name := BuiltSeed(w, req)];
  }

  lemma SeedPlanRun(w: Outside, h: Host, req: CreateReq, budget: nat)
    requires budget >= 4
    ensures Run(w, h, SeedPlan(w, req), budget) == Progress(SetSeed(h, req.name, BuiltSeed(w, req)), budget - 4, None)
  {
    var p := SeedPlan(w, req);
    var h2 := Step(w, Step(w, h, p[0]).host, p[1]).host;
    SeedTexts(w, h, req);
    RunPair(w, h, p[0], p[1], budget);
    RunPair(w, h2, p[2], p[3], budget - 2);
    RunAppend(w, h, [p[0], p[1]], [p[2], p[3]], budget);
    assert p == [p[0], p[1]] + [p[2], p[3]];
  }

  /** The domain as provisioning leaves it: an existing definition is kept. */
  function StartedDomain(w: Outside, h: Host, req: CreateReq): Domain
    requires |req.disks| <= MAX_DISKS
  {
    Domain(if req.name in h.domains then h.domains[req.name].spec else SpecOf(w, req), Running)
  }

  lemma StartRun(w: Outside, h: Host, req: CreateReq, budget: nat)
    requires |req.disks| <= MAX_DISKS && budget >= 2
    ensures var r := Run(w, h, [Define(req.name, SpecOf(w, req)), EnsureRunning(req.name)], budget);
      && (r.status.None? <==> NotPaused(h, req.name))
      && (r.status.None? ==> r.host == SetDomain(h, req.name, StartedDomain(w, h, req)))
  {
    var define, ensure := Define(req.name, SpecOf(w, req)), EnsureRunning(req.name);
    RunTwo(w, h, define, ensure, budget);
    var h1 := Step(w, h, define).host;
    RunOne(w, h1, ensure, budget - 1);
    if NotPaused(h, req.name) {
      assert Step(w, h1, ensure).host.domains == h.domains[req.name := StartedDomain(w, h, req)];
    }
  }

  lemma TailPlanRun(w: Outside, h: Host, req: CreateReq, budget: nat)
    requires |req.disks| <= MAX_DISKS && budget >= |TailPlan(w, req)|
    ensures var r := Run(w, h, TailPlan(w, req), budget);
      && (r.status.None? <==> NicsAccepted(w, req.nics) && NotPaused(h, req.name))
      && (r.status.None? ==>
            r.host == SetDomain(SetSeed(h, req.name, BuiltSeed(w, req)), req.name, StartedDomain(w, h, req)))
  {
    var h1 := SetSeed(h, req.name, BuiltSeed(w, req));
    SeedPlanRun(w, h, req, budget);
    if NicsAccepted(w, req.nics) {
      RunAppend(w, h, SeedPlan(w, req), [Define(req.name, SpecOf(w, req)), EnsureRunning(req.name)], budget);
      StartRun(w, h1, req, budget - 4);
    } else {
      RunAppend(w, h, SeedPlan(w, req), [Reject], budget);
      RunOne(w, h1, Reject, budget - 4);
    }
  }

  lemma {:induction false} AcceptedCount(disks: seq<DiskReq>, i: nat)
    requires DisksAccepted(disks, i) && i <= MAX_DISKS
    ensures i + |disks| <= MAX_DISKS
    decreases disks
  {
    if disks != [] { AcceptedCount(disks[1..], i + 1); }
  }

  /** What a caller can check before a provisioning request. */
  ghost predicate Provisionable(w: Outside, h: Host, req: CreateReq) {
    HeadAccepted(req) && DisksAccepted(req.disks, 0) && NicsAccepted(w, req.nics)
    && TemplatesObtainable(w, h.templates.Keys, req.disks) && NotPaused(h, req.name)
  }

  /** An uninterrupted provisioning succeeds exactly when the request is acceptable, its
    * templates can be had and the domain is not paused; then the domain runs, the seed is
    * built from this request and every volume exists. */
  lemma ProvisionOutcome(w: Outside, h: Host, req: CreateReq, budget: nat)
    requires budget >= |CreatePlan(w, req)|
    ensures var r := Run(w, h, CreatePlan(w, req), budget);
      && (r.status.None? <==> Provisionable(w, h, req))
      && (Provisionable(w, h, req) ==>
            && |req.disks| <= MAX_DISKS
            && r.host.domains == h.domains[req.name := StartedDomain(w, h, req)]
            && r.host.seeds == h.seeds[req.name := BuiltSeed(w, req)]
            && VolumesAdded(w, h.volumes, r.host.volumes, req.disks))
  {
    if HeadAccepted(req) {
      var disks := DiskPlan(w, req.disks, 0);
      DiskPlanRun(w, h, req.disks, 0, budget);
      RunAppend(w, h, disks, TailPlan(w, req), budget);
      var r := Run(w, h, disks, budget);
      if r.status.None? {
        AcceptedCount(req.disks, 0);
        TailPlanRun(w, r.host, req, r.budget);
      }
    }
  }
}
