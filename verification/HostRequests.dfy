/**
  * What a provisioning request gets, field by field: the answer, the volumes and their
  * templates, the two seed texts, the definition of the machine.
  */
module HostRequests {
  import opened Basics
  import opened Names
  import opened HostState
  import opened HostOutcomes

  // ---------------------------------------------------------------------------
  // The answer

  /** The first disk at fault decides: refused for its name, its size or its position, or failing
    * because its template is neither in the cache by then nor to be had. */
  function DiskFault(w: Outside, cached: set<string>, disks: seq<DiskReq>, i: nat): Option<Status>
    decreases disks
  {
    if disks == [] then None
    else
      var d := disks[0];
      if !ValidName(d.name) || d.sizeGb < 1 || d.sizeGb > 16384 || i >= 8 then Some(BadRequest)
      else if d.templateUrl == "" then DiskFault(w, cached, disks[1..], i + 1)
      else if w.cacheFile(d.templateUrl) !in cached && !Obtained(w, d) then Some(ServerError)
      else DiskFault(w, cached + {w.cacheFile(d.templateUrl)}, disks[1..], i + 1)
  }

  /** The template can be downloaded, and has the digest asked for if one was. */
  predicate Obtained(w: Outside, d: DiskReq) {
    && w.fetch(d.templateUrl).Some?
    && (d.templateSha == "" || w.digest(w.fetch(d.templateUrl).value) == w.lowerCase(d.templateSha))
  }

  predicate NicFault(w: Outside, n: NicReq) {
    var bridge := if n.bridge == "" then w.defaultBridge else n.bridge;
    |bridge| == 0 || |bridge| > 15 || (exists c :: c in bridge && c in " /\\'\"`$;") || !ValidMac(n.mac)
  }

  predicate HeadFault(req: CreateReq) {
    || !ValidName(req.name) || req.hardware.vcpus < 1 || req.hardware.vcpus > 128
    || req.hardware.memoryMb < 256 || req.hardware.memoryMb > 1048576 || |req.disks| == 0
  }

  lemma {:induction false} DiskPlanStatus(w: Outside, h: Host, disks: seq<DiskReq>, i: nat, budget: nat)
    requires budget >= |DiskPlan(w, disks, i)|
    ensures Run(w, h, DiskPlan(w, disks, i), budget).status == DiskFault(w, h.templates.Keys, disks, i)
    decreases disks
  {
    if disks != [] {
      var d, first := disks[0], DiskSteps(w, disks[0], i);
      RunAppend(w, h, first, DiskPlan(w, disks[1..], i + 1), budget);
      DiskStatus(w, h, d, i, budget);
      DiskStepsRun(w, h, d, i, budget);
      var r := Run(w, h, first, budget);
      if r.status.None? { DiskPlanStatus(w, r.host, disks[1..], i + 1, r.budget); }
    }
  }

  lemma DiskStatus(w: Outside, h: Host, d: DiskReq, i: nat, budget: nat)
    requires budget >= |DiskSteps(w, d, i)|
    ensures Run(w, h, DiskSteps(w, d, i), budget).status
         == if !ValidName(d.name) || d.sizeGb < 1 || d.sizeGb > 16384 || i >= 8 then Some(BadRequest)
            else if d.templateUrl != "" && w.cacheFile(d.templateUrl) !in h.templates && !Obtained(w, d)
            then Some(ServerError) else None
  {
    var volume := CreateVolume(d.name, VolumeOf(w, d));
    if !DiskAccepted(d, i) {
      RunOne(w, h, Reject, budget);
    } else if d.templateUrl == "" {
      RunOne(w, h, volume, budget);
    } else {
      var template := Template(d.templateUrl, d.templateSha);
      RunTwo(w, h, template, volume, budget);
      if Step(w, h, template).Next? { RunOne(w, Step(w, h, template).host, volume, budget - 1); }
    }
  }

  /** The answer to an uninterrupted request: refused for its head; else as its first disk at fault
    * says; else refused for a card; else failing for a domain that cannot be started; else none of
    * these, and the machine is created. */
  lemma ProvisionStatus(w: Outside, h: Host, req: CreateReq, budget: nat)
    requires budget >= |CreatePlan(w, req)|
    ensures Run(w, h, CreatePlan(w, req), budget).status
         == if HeadFault(req) then Some(BadRequest)
            else if DiskFault(w, h.templates.Keys, req.disks, 0).Some?
              then DiskFault(w, h.templates.Keys, req.disks, 0)
            else if exists n :: n in req.nics && NicFault(w, n) then Some(BadRequest)
            else if InState(h, req.name, Paused) || InState(h, req.name, Transient) then Some(ServerError)
            else None
  {
    if HeadFault(req) {
      RunOne(w, h, Reject, budget);
    } else {
      var disks := DiskPlan(w, req.disks, 0);
      RunAppend(w, h, disks, TailPlan(w, req), budget);
      DiskPlanStatus(w, h, req.disks, 0, budget);
      DiskPlanRun(w, h, req.disks, 0, budget);
      var r := Run(w, h, disks, budget);
      if r.status.None? {
        AcceptedCount(req.disks, 0);
        TailStatus(w, r.host, req, r.budget);
      }
    }
  }

  lemma TailStatus(w: Outside, h: Host, req: CreateReq, budget: nat)
    requires |req.disks| <= MAX_DISKS && budget >= |TailPlan(w, req)|
    ensures Run(w, h, TailPlan(w, req), budget).status
         == if exists n :: n in req.nics && NicFault(w, n) then Some(BadRequest)
            else if InState(h, req.name, Paused) || InState(h, req.name, Transient) then Some(ServerError)
            else None
  {
    var h1 := SetSeed(h, req.name, BuiltSeed(w, req));
    assert NicsAccepted(w, req.nics) <==> !exists n :: n in req.nics && NicFault(w, n);
    SeedPlanRun(w, h, req, budget);
    if NicsAccepted(w, req.nics) {
      RunAppend(w, h, SeedPlan(w, req), [Define(req.name, SpecOf(w, req)), EnsureRunning(req.name)], budget);
      StartStatus(w, h1, req, budget - 4);
    } else {
      RunAppend(w, h, SeedPlan(w, req), [Reject], budget);
      RunOne(w, h1, Reject, budget - 4);
    }
  }

  lemma StartStatus(w: Outside, h: Host, req: CreateReq, budget: nat)
    requires |req.disks| <= MAX_DISKS && budget >= 2
    ensures Run(w, h, [Define(req.name, SpecOf(w, req)), EnsureRunning(req.name)], budget).status
         == if InState(h, req.name, Paused) || InState(h, req.name, Transient) then Some(ServerError) else None
  {
    var define, ensure := Define(req.name, SpecOf(w, req)), EnsureRunning(req.name);
    RunTwo(w, h, define, ensure, budget);
    RunOne(w, Step(w, h, define).host, ensure, budget - 1);
  }

  // ---------------------------------------------------------------------------
  // Templates

  /** What is new in the cache was downloaded for one of the disks, with the digest asked for;
    * every template of the disks is there. */
  ghost predicate CacheGrows(
      w: Outside, before: map<string, string>, after: map<string, string>, disks: seq<DiskReq>)
  {
    && (forall p :: p in before ==> p in after && after[p] == before[p])
    && (forall d :: d in disks && d.templateUrl != "" ==> w.cacheFile(d.templateUrl) in after)
    && (forall p :: p in after && p !in before ==> FetchedFor(w, p, after[p], disks))
  }

  ghost predicate FetchedFor(w: Outside, path: string, text: string, disks: seq<DiskReq>) {
    exists d :: d in disks && d.templateUrl != "" && w.cacheFile(d.templateUrl) == path
      && w.fetch(d.templateUrl) == Some(text) && (d.templateSha == "" || w.digest(text) == w.lowerCase(d.templateSha))
  }

  lemma DiskCache(w: Outside, h: Host, d: DiskReq, i: nat, budget: nat)
    requires budget >= |DiskSteps(w, d, i)| && Run(w, h, DiskSteps(w, d, i), budget).status.None?
    ensures CacheGrows(w, h.templates, Run(w, h, DiskSteps(w, d, i), budget).host.templates, [d])
  {
    var volume := CreateVolume(d.name, VolumeOf(w, d));
    if !DiskAccepted(d, i) {
      RunOne(w, h, Reject, budget);
    } else if d.templateUrl == "" {
      RunOne(w, h, volume, budget);
    } else {
      var template := Template(d.templateUrl, d.templateSha);
      RunTwo(w, h, template, volume, budget);
      RunOne(w, Step(w, h, template).host, volume, budget - 1);
      assert d in [d];
    }
  }

  lemma CacheGrowsOn(w: Outside, a: map<string, string>, b: map<string, string>, c: map<string, string>,
      d: DiskReq, rest: seq<DiskReq>)
    requires CacheGrows(w, a, b, [d]) && CacheGrows(w, b, c, rest)
    ensures CacheGrows(w, a, c, [d] + rest)
  {
    assert forall x :: x in [d] + rest <==> x in [d] || x in rest;
    assert d in [d];
    forall p | p in c && p !in a ensures FetchedFor(w, p, c[p], [d] + rest) {
      if p in b {
        assert FetchedFor(w, p, b[p], [d]);
      } else {
        assert FetchedFor(w, p, c[p], rest);
      }
    }
  }

  lemma {:induction false} DisksCache(w: Outside, h: Host, disks: seq<DiskReq>, i: nat, budget: nat)
    requires budget >= |DiskPlan(w, disks, i)| && Run(w, h, DiskPlan(w, disks, i), budget).status.None?
    ensures CacheGrows(w, h.templates, Run(w, h, DiskPlan(w, disks, i), budget).host.templates, disks)
    decreases disks
  {
    if disks != [] {
      var d, first := disks[0], DiskSteps(w, disks[0], i);
      RunAppend(w, h, first, DiskPlan(w, disks[1..], i + 1), budget);
      DiskStepsRun(w, h, d, i, budget);
      DiskCache(w, h, d, i, budget);
      var r := Run(w, h, first, budget);
      DisksCache(w, r.host, disks[1..], i + 1, r.budget);
      var last := Run(w, r.host, DiskPlan(w, disks[1..], i + 1), r.budget);
      CacheGrowsOn(w, h.templates, r.host.templates, last.host.templates, d, disks[1..]);
      assert [d] + disks[1..] == disks;
    }
  }

  // ---------------------------------------------------------------------------
  // The seed texts

  function Items(w: Outside, keys: seq<string>): (r: seq<string>)
    ensures |r| == |keys|
  {
    seq(|keys|, i requires 0 <= i < |keys| => "  - " + w.trim(keys[i]))
  }

  /** The user data: the text given, else a cloud-config that lists the trimmed keys. */
  function UserText(w: Outside, req: CreateReq): string {
    if req.userData != "" then req.userData
    else Lines(["#cloud-config"]
               + (if req.sshKeys == [] then [] else ["ssh_authorized_keys:"] + Items(w, req.sshKeys))
               + ["package_update: true"])
  }

  function MetaText(req: CreateReq): string {
    Lines(["instance-id: " + req.name, "local-hostname: " + req.hostname])
  }

  lemma {:induction false} ItemLines(w: Outside, keys: seq<string>)
    ensures KeyLines(w, keys) == Lines(Items(w, keys))
  {
    if keys != [] {
      ItemLines(w, keys[1..]);
      assert Items(w, keys)[1..] == Items(w, keys[1..]);
    }
  }

  lemma OneLineText(line: string)
    ensures Lines([line]) == line + "\n"
  {
    assert Lines([line]) == line + "\n" + "";
  }

  lemma UserTextIs(w: Outside, req: CreateReq)
    ensures UserDataOf(w, req) == UserText(w, req)
  {
    if req.userData == "" {
      var head, last := ["#cloud-config"], ["package_update: true"];
      OneLineText("#cloud-config");
      OneLineText("package_update: true");
      if req.sshKeys == [] {
        assert head + [] + last == head + last;
        LinesAppend(head, last);
      } else {
        var title, items := ["ssh_authorized_keys:"], Items(w, req.sshKeys);
        OneLineText("ssh_authorized_keys:");
        ItemLines(w, req.sshKeys);
        LinesAppend(title, items);
        LinesAppend(head, title + items);
        LinesAppend(head + (title + items), last);
      }
    }
  }

  lemma MetaTextIs(req: CreateReq)
    ensures MetaDataOf(req) == MetaText(req)
  {
    OneLineText("instance-id: " + req.name);
    OneLineText("local-hostname: " + req.hostname);
    LinesAppend(["instance-id: " + req.name], ["local-hostname: " + req.hostname]);
  }

  // ---------------------------------------------------------------------------
  // The definition and the whole outcome

  /** The machine as requested: each disk by the path of its volume, then the seed as a drive, the
    * cards with their addresses, bridges and tags. */
  ghost predicate Defines(w: Outside, spec: DomainSpec, req: CreateReq) {
    && spec.name == req.name && spec.hardware == req.hardware
    && |req.disks| <= 8 && |spec.disks| == |req.disks| + 1 && |spec.nics| == |req.nics|
    && (forall i :: 0 <= i < |req.disks| ==>
          spec.disks[i].path == req.disks[i].name + ".qcow2"
          && spec.disks[i].dev == "vd" + ["abcdefgh"[i]] && !spec.disks[i].cdrom)
    && spec.disks[|req.disks|] == Disk(req.name + "/seed.iso", "sda", true)
    && (forall i :: 0 <= i < |req.nics| ==>
          spec.nics[i].mac == req.nics[i].mac && spec.nics[i].vlanTag == req.nics[i].vlanTag
          && spec.nics[i].bridge == if req.nics[i].bridge == "" then w.defaultBridge else req.nics[i].bridge)
  }

  lemma DevNames(i: nat)
    requires i < 8
    ensures DevName(i) == "vd" + ["abcdefgh"[i]]
  {
  }

  lemma SpecDefines(w: Outside, req: CreateReq)
    requires |req.disks| <= MAX_DISKS
    ensures Defines(w, SpecOf(w, req), req)
  {
    var spec := SpecOf(w, req);
    forall i | 0 <= i < |req.disks|
      ensures spec.disks[i] == Disk(req.disks[i].name + ".qcow2", "vd" + ["abcdefgh"[i]], false)
    {
      DevNames(i);
    }
  }

  /** What an uninterrupted provisioning leaves that succeeds: the machine runs, newly defined as
    * requested or as it was; its seed has the two texts and the image of both; every volume
    * exists, a new one with the size and the template of the first disk that asks for it; the
    * templates are cached. Other machines and seeds are untouched. */
  lemma Provisioned(w: Outside, h: Host, req: CreateReq, budget: nat)
    requires budget >= |CreatePlan(w, req)| && Run(w, h, CreatePlan(w, req), budget).status == None
    ensures var g := Run(w, h, CreatePlan(w, req), budget).host; var vm := req.name;
      && g.domains.Keys == h.domains.Keys + {vm} && g.domains[vm].state == Running
      && (if vm in h.domains then g.domains[vm].spec == h.domains[vm].spec else Defines(w, g.domains[vm].spec, req))
      && (forall v :: v in h.domains && v != vm ==> g.domains[v] == h.domains[v])
      && g.seeds == h.seeds[vm := Seed(Some(UserText(w, req)), Some(MetaText(req)),
                                       Some((UserText(w, req), MetaText(req))))]
      && VolumesAdded(w, h.volumes, g.volumes, req.disks)
      && CacheGrows(w, h.templates, g.templates, req.disks)
  {
    ProvisionOutcome(w, h, req, budget);
    ProvisionCache(w, h, req, budget);
    UserTextIs(w, req);
    MetaTextIs(req);
    SpecDefines(w, req);
  }

  lemma ProvisionCache(w: Outside, h: Host, req: CreateReq, budget: nat)
    requires budget >= |CreatePlan(w, req)| && Run(w, h, CreatePlan(w, req), budget).status == None
    ensures CacheGrows(w, h.templates, Run(w, h, CreatePlan(w, req), budget).host.templates, req.disks)
  {
    ProvisionOutcome(w, h, req, budget);
    var disks := DiskPlan(w, req.disks, 0);
    RunAppend(w, h, disks, TailPlan(w, req), budget);
    DiskPlanRun(w, h, req.disks, 0, budget);
    DisksCache(w, h, req.disks, 0, budget);
    var r := Run(w, h, disks, budget);
    TailPlanRun(w, r.host, req, r.budget);
  }

  // ---------------------------------------------------------------------------
  // Deletion

  lemma DeletionRefused(w: Outside, h: Host, vm: string, budget: nat)
    requires !ValidName(vm) && budget >= 1
    ensures Run(w, h, DeletePlan(vm), budget) == Progress(h, budget - 1, Some(BadRequest))
  {
    RunOne(w, h, Reject, budget);
  }

  /** The volumes that a deletion removes. */
  lemma EightDisks(vm: string, disk: string)
    ensures disk in DiskNames(vm) <==> exists c :: '0' <= c <= '7' && disk == vm + "-disk" + [c]
  {
    forall i: nat | i < 8 ensures DiskName(vm, i) == vm + "-disk" + ["01234567"[i]] {
      assert Decimal(i) == ["01234567"[i]];
    }
    if disk in DiskNames(vm) {
      var i :| 0 <= i < 8 && disk == DiskName(vm, i);
      assert '0' <= "01234567"[i] <= '7';
    }
    if c :| '0' <= c <= '7' && disk == vm + "-disk" + [c] {
      var i := c as int - '0' as int;
      assert "01234567"[i] == c;
      assert DiskName(vm, i) in DiskNames(vm);
    }
  }
}
