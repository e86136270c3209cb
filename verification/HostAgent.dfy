/**
  * The agent's storage and libvirt operations and its two machine handlers, updating the host
  * in place. `budget` counts the effects the process may still perform before it is cut off;
  * every method is proved to do what `HostState.Run` says of the corresponding plan.
  */
module HostAgent {
  import opened Basics
  import opened Names
  import opened HostState
  import FirewallTable

  /** The HTTP answer: no failure means the whole plan was performed. */
  function Answer(status: Option<Status>, success: Status): Status { if status.Some? then status.value else success }

  /** What is left of the disk loop before disk i. */
  ghost function DisksLeft(w: Outside, disks: seq<DiskReq>, i: nat): seq<Effect>
    requires i <= |disks|
  {
    DiskPlan(w, disks[i..], i)
  }

  lemma DisksLeftUnfold(w: Outside, disks: seq<DiskReq>, i: nat)
    requires i < |disks|
    ensures DisksLeft(w, disks, i) == DiskSteps(w, disks[i], i) + DisksLeft(w, disks, i + 1)
  {
    assert disks[i..][1..] == disks[i + 1..];
  }

  /** The effects of disk i, then what is left. */
  lemma DiskStep(w: Outside, h: Host, disks: seq<DiskReq>, i: nat, budget: nat)
    requires i < |disks|
    ensures var r := Run(w, h, DiskSteps(w, disks[i], i), budget);
      Run(w, h, DisksLeft(w, disks, i), budget)
        == if r.status.Some? then r else Run(w, r.host, DisksLeft(w, disks, i + 1), r.budget)
  {
    DisksLeftUnfold(w, disks, i);
    RunAppend(w, h, DiskSteps(w, disks[i], i), DisksLeft(w, disks, i + 1), budget);
  }

  lemma SpecDisksSnoc(disks: seq<DiskReq>, i: nat)
    requires i < |disks| && i < MAX_DISKS
    ensures SpecDisks(disks[..i + 1]) == SpecDisks(disks[..i]) + [Disk(VolumePath(disks[i].name), DevName(i), false)]
  {
  }

  /** What is left of a deletion before volume i. */
  ghost function VolumesAndSeed(vm: string, i: nat): seq<Effect>
    requires i <= MAX_DISKS
  {
    DeleteVolumes(vm, i) + [Effect.DeleteSeed(vm)]
  }

  lemma DeletePlanUnfold(vm: string)
    requires ValidName(vm)
    ensures DeletePlan(vm) == [StopDomain(vm), Effect.Undefine(vm)] + VolumesAndSeed(vm, 0)
  {
  }

  lemma VolumesAndSeedUnfold(vm: string, i: nat)
    requires i < MAX_DISKS
    ensures VolumesAndSeed(vm, i) == [Effect.DeleteVolume(DiskName(vm, i))] + VolumesAndSeed(vm, i + 1)
  {
  }

  class Agent {
    const outside: Outside
    const filter: FirewallTable.Filter
    var templates: map<string, string>
    var volumes: map<string, Volume>
    var seeds: map<string, Seed>
    var domains: map<string, Domain>
    var budget: nat

    constructor (outside: Outside, filter: FirewallTable.Filter, h: Host, budget: nat)
      ensures this.outside == outside && this.filter == filter && Snapshot() == h && this.budget == budget
    {
      this.outside, this.filter, this.budget := outside, filter, budget;
      templates, volumes, seeds, domains := h.templates, h.volumes, h.seeds, h.domains;
    }

    ghost function Snapshot(): Host
      reads this
    {
      Host(templates, volumes, seeds, domains)
    }

    /** The host, the remaining budget and the status are those of running the plan. */
    ghost predicate Reached(h: Host, b: nat, plan: seq<Effect>, status: Option<Status>)
      reads this
    {
      Progress(Snapshot(), budget, status) == Run(outside, h, plan, b)
    }

    /** Takes one effect from the budget. */
    method Tick() returns (cut: bool)
      modifies this`budget
      ensures cut == (old(budget) == 0)
      ensures budget == if cut then 0 else old(budget) - 1
    {
      cut := budget == 0;
      if !cut { budget := budget - 1; }
    }

    method Refuse() returns (status: Option<Status>)
      modifies this
      ensures Reached(old(Snapshot()), old(budget), [Reject], status) && status.Some?
    {
      var cut := Tick();
      status := Some(if cut then Interrupted else BadRequest);
    }

    method EnsureTemplate(url: string, sha: string) returns (path: string, status: Option<Status>)
      modifies this
      ensures Reached(old(Snapshot()), old(budget), [Template(url, sha)], status)
      ensures status.None? ==> path == outside.cacheFile(url)
    {
      path := outside.cacheFile(url);
      var cut := Tick();
      if cut { return path, Some(Interrupted); }
      RunOne(outside, old(Snapshot()), Template(url, sha), old(budget));
      if path in templates { return path, None; }
      var body := outside.fetch(url);
      if body.None? { return path, Some(ServerError); }
      if sha != "" && outside.digest(body.value) != outside.lowerCase(sha) { return path, Some(ServerError); }
      templates := templates[path := body.value];
      status := None;
    }

    method CreateVolume(name: string, sizeGb: int, backing: Option<string>)
      returns (path: string, status: Option<Status>)
      modifies this
      ensures Reached(old(Snapshot()), old(budget), [Effect.CreateVolume(name, Volume(sizeGb, backing))], status)
      ensures path == VolumePath(name)
    {
      path := VolumePath(name);
      var cut := Tick();
      if cut { return path, Some(Interrupted); }
      RunOne(outside, old(Snapshot()), Effect.CreateVolume(name, Volume(sizeGb, backing)), old(budget));
      status := None;
      if name in volumes { return; }
      volumes := volumes[name := Volume(sizeGb, backing)];
    }

    method DeleteVolume(name: string) returns (status: Option<Status>)
      modifies this
      ensures Reached(old(Snapshot()), old(budget), [Effect.DeleteVolume(name)], status)
    {
      var cut := Tick();
      if cut { return Some(Interrupted); }
      RunOne(outside, old(Snapshot()), Effect.DeleteVolume(name), old(budget));
      volumes := volumes - {name};
      status := None;
    }

    method MakeDirectory(vm: string) returns (status: Option<Status>)
      modifies this
      ensures Reached(old(Snapshot()), old(budget), [MakeSeedDir(vm)], status)
    {
      var cut := Tick();
      if cut { return Some(Interrupted); }
      RunOne(outside, old(Snapshot()), MakeSeedDir(vm), old(budget));
      if vm !in seeds { seeds := seeds[vm := Seed(None, None, None)]; }
      status := None;
    }

    method WriteText(vm: string, text: string, user: bool) returns (status: Option<Status>)
      modifies this
      ensures Reached(old(Snapshot()), old(budget),
        [if user then WriteUserData(vm, text) else WriteMetaData(vm, text)], status)
    {
      var cut := Tick();
      if cut { return Some(Interrupted); }
      RunOne(outside, old(Snapshot()), if user then WriteUserData(vm, text) else WriteMetaData(vm, text), old(budget));
      if vm !in seeds { return Some(ServerError); }
      seeds := seeds[vm := if user then seeds[vm].(userData := Some(text)) else seeds[vm].(metaData := Some(text))];
      status := None;
    }

    method Genisoimage(vm: string) returns (status: Option<Status>)
      modifies this
      ensures Reached(old(Snapshot()), old(budget), [BuildIso(vm)], status)
    {
      var cut := Tick();
      if cut { return Some(Interrupted); }
      RunOne(outside, old(Snapshot()), BuildIso(vm), old(budget));
      if vm !in seeds || seeds[vm].userData.None? || seeds[vm].metaData.None? { return Some(ServerError); }
      seeds := seeds[vm := seeds[vm].(iso := Some((seeds[vm].userData.value, seeds[vm].metaData.value)))];
      status := None;
    }

    /** The user-data text: given, or a cloud-config listing the trimmed keys in order. */
    method UserData(req: CreateReq) returns (text: string)
      ensures text == UserDataOf(outside, req)
    {
      text := req.userData;
      if text == "" {
        text := "#cloud-config\n";
        if |req.sshKeys| > 0 {
          var lines := "ssh_authorized_keys:\n";
          for i := 0 to |req.sshKeys|
            invariant lines + KeyLines(outside, req.sshKeys[i..])
                   == "ssh_authorized_keys:\n" + KeyLines(outside, req.sshKeys)
          {
            assert req.sshKeys[i..][1..] == req.sshKeys[i + 1..];
            lines := lines + "  - " + outside.trim(req.sshKeys[i]) + "\n";
          }
          text := text + lines;
        }
        text := text + "package_update: true\n";
      }
    }

    method BuildSeedISO(req: CreateReq) returns (path: string, status: Option<Status>)
      modifies this
      ensures Reached(old(Snapshot()), old(budget), SeedPlan(outside, req), status)
      ensures path == SeedPath(req.name)
    {
      path := SeedPath(req.name);
      ghost var h, b, p := Snapshot(), budget, SeedPlan(outside, req);
      RunAppend(outside, h, [p[0]], p[1..], b);
      assert p == [p[0]] + p[1..];
      status := MakeDirectory(req.name);
      if status.Some? { return; }
      var userData := UserData(req);
      RunAppend(outside, Snapshot(), [p[1]], p[2..], budget);
      assert p[1..] == [p[1]] + p[2..];
      status := WriteText(req.name, userData, true);
      if status.Some? { return; }
      RunAppend(outside, Snapshot(), [p[2]], [p[3]], budget);
      assert p[2..] == [p[2]] + [p[3]];
      status := WriteText(req.name, MetaDataOf(req), false);
      if status.Some? { return; }
      status := Genisoimage(req.name);
    }

    method DeleteSeed(vm: string) returns (status: Option<Status>)
      modifies this
      ensures Reached(old(Snapshot()), old(budget), [Effect.DeleteSeed(vm)], status)
    {
      var cut := Tick();
      if cut { return Some(Interrupted); }
      RunOne(outside, old(Snapshot()), Effect.DeleteSeed(vm), old(budget));
      seeds := seeds - {vm};
      status := None;
    }

    method StartDomain(vm: string) returns (status: Option<Status>)
      modifies this
      ensures Reached(old(Snapshot()), old(budget), [EnsureRunning(vm)], status)
    {
      var cut := Tick();
      if cut { return Some(Interrupted); }
      RunOne(outside, old(Snapshot()), EnsureRunning(vm), old(budget));
      if vm !in domains { return Some(ServerError); }
      status := None;
      if domains[vm].state == Running {
        assert domains[vm := domains[vm]] == domains;
        return;
      }
      if domains[vm].state == Paused || domains[vm].state == Transient { return Some(ServerError); }
      domains := domains[vm := domains[vm].(state := Running)];
    }

    /** Looks the domain up first: an existing one is only started, never redefined. */
    method DefineAndStart(spec: DomainSpec) returns (status: Option<Status>)
      modifies this
      ensures Reached(old(Snapshot()), old(budget), [Define(spec.name, spec), EnsureRunning(spec.name)], status)
    {
      RunAppend(outside, Snapshot(), [Define(spec.name, spec)], [EnsureRunning(spec.name)], budget);
      var cut := Tick();
      if cut { return Some(Interrupted); }
      RunOne(outside, old(Snapshot()), Define(spec.name, spec), old(budget));
      if spec.name !in domains {
        domains := domains[spec.name := Domain(spec, ShutOff)];
      }
      status := StartDomain(spec.name);
    }

    /** A running domain is destroyed before it is undefined; a missing one is fine; a paused one
      * stays behind as a transient domain, which cannot be undefined again. */
    method Undefine(vm: string) returns (status: Option<Status>)
      modifies this
      ensures Reached(old(Snapshot()), old(budget), [StopDomain(vm), Effect.Undefine(vm)], status)
    {
      if budget >= 2 { RunTwo(outside, Snapshot(), StopDomain(vm), Effect.Undefine(vm), budget); }
      var cut := Tick();
      if cut { return Some(Interrupted); }
      if vm in domains && domains[vm].state == Running {
        domains := domains[vm := domains[vm].(state := ShutOff)];
      }
      ghost var h := Snapshot();
      cut := Tick();
      if cut { return Some(Interrupted); }
      RunOne(outside, h, Effect.Undefine(vm), budget + 1);
      if vm in domains && domains[vm].state == Transient { return Some(ServerError); }
      if vm in domains && domains[vm].state == ShutOff {
        domains := domains - {vm};
      } else if vm in domains && domains[vm].state == Paused {
        domains := domains[vm := domains[vm].(state := Transient)];
      }
      status := None;
    }

    /** All that is kept by naming convention goes; the firewall's chains and jumps stay. */
    method HandleDeleteVm(name: string) returns (answer: Status)
      requires filter.Valid()
      modifies this, filter
      ensures filter.Valid() && filter.Contents() == old(filter.Contents())
      ensures var r := Run(outside, old(Snapshot()), DeletePlan(name), old(budget));
        Snapshot() == r.host && budget == r.budget && answer == Answer(r.status, Deleted)
    {
      if !ValidName(name) {
        var refused := Refuse();
        return refused.value;
      }
      ghost var final := Run(outside, Snapshot(), DeletePlan(name), budget);
      DeletePlanUnfold(name);
      RunAppend(outside, Snapshot(), [StopDomain(name), Effect.Undefine(name)], VolumesAndSeed(name, 0), budget);
      var status := Undefine(name);
      if status.Some? { return status.value; }
      var i := 0;
      while i < MAX_DISKS
        modifies this
        invariant 0 <= i <= MAX_DISKS
        invariant Run(outside, Snapshot(), VolumesAndSeed(name, i), budget) == final
      {
        VolumesAndSeedUnfold(name, i);
        RunAppend(outside, Snapshot(), [Effect.DeleteVolume(DiskName(name, i))], VolumesAndSeed(name, i + 1), budget);
        status := DeleteVolume(DiskName(name, i));
        if status.Some? { return status.value; }
        i := i + 1;
      }
      assert VolumesAndSeed(name, MAX_DISKS) == [Effect.DeleteSeed(name)];
      status := DeleteSeed(name);
      if status.Some? { return status.value; }
      filter.Flush(name);
      answer := Deleted;
    }

    method HandleCreateVm(req: CreateReq) returns (answer: Status)
      modifies this
      ensures var r := Run(outside, old(Snapshot()), CreatePlan(outside, req), old(budget));
        Snapshot() == r.host && budget == r.budget && answer == Answer(r.status, Created)
    {
      if !HeadAccepted(req) {
        var refused := Refuse();
        return refused.value;
      }
      ghost var w := outside;
      RunAppend(w, Snapshot(), DiskPlan(w, req.disks, 0), TailPlan(w, req), budget);
      var status, disks := CreateDisks(req.disks);
      if status.Some? { return status.value; }
      ghost var last :=
        if NicsAccepted(w, req.nics) then [Define(req.name, SpecOf(w, req)), EnsureRunning(req.name)] else [Reject];
      RunAppend(w, Snapshot(), SeedPlan(w, req), last, budget);
      var seed;
      seed, status := BuildSeedISO(req);
      if status.Some? { return status.value; }
      disks := disks + [Disk(seed, "sda", true)];
      var ok, nics := CollectNics(req.nics);
      if !ok {
        var refused := Refuse();
        return refused.value;
      }
      var spec := DomainSpec(req.name, req.hardware, disks, nics);
      status := DefineAndStart(spec);
      answer := Answer(status, Created);
    }

    /** The disk loop: template, volume, one more disk in the specification. */
    method CreateDisks(reqs: seq<DiskReq>) returns (status: Option<Status>, disks: seq<Disk>)
      modifies this
      ensures Reached(old(Snapshot()), old(budget), DiskPlan(outside, reqs, 0), status)
      ensures status.None? ==> |reqs| <= MAX_DISKS && disks == SpecDisks(reqs)
    {
      ghost var w, h, b := outside, Snapshot(), budget;
      disks := [];
      var i := 0;
      assert reqs[0..] == reqs;
      while i < |reqs|
        invariant 0 <= i <= |reqs| && i <= MAX_DISKS && disks == SpecDisks(reqs[..i])
        invariant Run(w, Snapshot(), DisksLeft(w, reqs, i), budget) == Run(w, h, DiskPlan(w, reqs, 0), b)
      {
        DiskStep(w, Snapshot(), reqs, i, budget);
        var disk;
        status, disk := CreateDisk(reqs[i], i);
        if status.Some? { return; }
        SpecDisksSnoc(reqs, i);
        disks := disks + [disk];
        i := i + 1;
      }
      assert reqs[..i] == reqs;
      status := None;
    }

    method CreateDisk(d: DiskReq, i: nat) returns (status: Option<Status>, disk: Disk)
      modifies this
      ensures Reached(old(Snapshot()), old(budget), DiskSteps(outside, d, i), status)
      ensures status.None? ==> i < MAX_DISKS && disk == Disk(VolumePath(d.name), DevName(i), false)
    {
      disk := Disk("", "", false);
      if !ValidName(d.name) || d.sizeGb < 1 || d.sizeGb > 16384 || i >= MAX_DISKS {
        status := Refuse();
        return;
      }
      var backing := None;
      if d.templateUrl != "" {
        RunAppend(outside, Snapshot(), [Template(d.templateUrl, d.templateSha)],
          [Effect.CreateVolume(d.name, VolumeOf(outside, d))], budget);
        var template;
        template, status := EnsureTemplate(d.templateUrl, d.templateSha);
        if status.Some? { return; }
        backing := Some(template);
      }
      var path;
      path, status := CreateVolume(d.name, d.sizeGb, backing);
      disk := Disk(path, DevName(i), false);
    }

    method CollectNics(reqs: seq<NicReq>) returns (ok: bool, nics: seq<Nic>)
      ensures ok == NicsAccepted(outside, reqs)
      ensures ok ==> nics == SpecNics(outside, reqs)
    {
      nics := [];
      for i := 0 to |reqs|
        invariant nics == SpecNics(outside, reqs[..i])
        invariant NicsAccepted(outside, reqs[..i])
      {
        var bridge := reqs[i].bridge;
        if bridge == "" {
          bridge := outside.defaultBridge;
        }
        if !ValidBridge(bridge) || !ValidMac(reqs[i].mac) {
          assert !NicAccepted(outside, reqs[i]);
          return false, nics;
        }
        nics := nics + [Nic(reqs[i].mac, bridge, reqs[i].vlanTag)];
        assert reqs[..i + 1] == reqs[..i] + [reqs[i]];
      }
      assert reqs[..|reqs|] == reqs;
      ok := true;
    }
  }
}
