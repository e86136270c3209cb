/**
  * A hypervisor host as the agent sees it: the template cache, the volumes, the cloud-init
  * seeds and the libvirt domains; and the effects of which provisioning and deletion consist.
  */
module HostState {
  import opened Basics
  import opened Names

  /** What lies outside the host: downloads, digests, the cache file name of a URL, trimming. */
  datatype Outside = Outside(
    fetch: string -> Option<string>,
    digest: string -> string,
    cacheFile: string -> string,
    lowerCase: string -> string,
    trim: string -> string,
    defaultBridge: string)

  datatype Volume = Volume(sizeGb: int, backing: Option<string>)

  /** The seed directory; the image holds the two texts it was built from. */
  datatype Seed = Seed(userData: Option<string>, metaData: Option<string>, iso: Option<(string, string)>)

  /** A paused domain that was undefined lives on, paused and transient. */
  datatype RunState = Running | ShutOff | Paused | Transient

  datatype Disk = Disk(path: string, dev: string, cdrom: bool)

  datatype Nic = Nic(mac: string, bridge: string, vlanTag: int)

  datatype Hardware = Hardware(
    vcpus: int, memoryMb: int, uefi: bool, sockets: int, cores: int, threads: int,
    bootOrder: seq<string>, pciDevices: seq<(string, string, string, string)>)

  datatype DomainSpec = DomainSpec(name: string, hardware: Hardware, disks: seq<Disk>, nics: seq<Nic>)

  datatype Domain = Domain(spec: DomainSpec, state: RunState)

  datatype Host = Host(
    templates: map<string, string>,
    volumes: map<string, Volume>,
    seeds: map<string, Seed>,
    domains: map<string, Domain>)

  datatype DiskReq = DiskReq(name: string, sizeGb: int, templateUrl: string, templateSha: string)

  datatype NicReq = NicReq(mac: string, bridge: string, vlanTag: int)

  datatype CreateReq = CreateReq(
    name: string, hardware: Hardware, disks: seq<DiskReq>, nics: seq<NicReq>,
    hostname: string, sshKeys: seq<string>, userData: string)

  datatype Status = Created | Deleted | BadRequest | ServerError | Interrupted

  /** The atomic effects, in the order provisioning and deletion perform them. */
  datatype Effect =
    | Reject
    | Template(url: string, sha: string)
    | CreateVolume(disk: string, volume: Volume)
    | MakeSeedDir(vm: string)
    | WriteUserData(vm: string, text: string)
    | WriteMetaData(vm: string, text: string)
    | BuildIso(vm: string)
    | Define(vm: string, spec: DomainSpec)
    | EnsureRunning(vm: string)
    | StopDomain(vm: string)
    | Undefine(vm: string)
    | DeleteVolume(disk: string)
    | DeleteSeed(vm: string)

  datatype StepResult = Next(host: Host) | Stop(status: Status)

  predicate InState(h: Host, vm: string, state: RunState) { vm in h.domains && h.domains[vm].state == state }

  predicate Downloadable(w: Outside, url: string, sha: string) {
    w.fetch(url).Some? && (sha == "" || w.digest(w.fetch(url).value) == w.lowerCase(sha))
  }

  function SetSeed(h: Host, vm: string, seed: Seed): Host { h.(seeds := h.seeds[vm := seed]) }

  function SetDomain(h: Host, vm: string, d: Domain): Host { h.(domains := h.domains[vm := d]) }

  /** One effect on a host. A cached template is not checked again; existing volumes and
    * domains are kept; seed files are overwritten; libvirt refuses to start a paused domain and
    * to undefine a transient one. A domain to be undefined has been stopped if it was running. */
  function Step(w: Outside, h: Host, e: Effect): StepResult {
    match e
    case Reject => Stop(BadRequest)
    case Template(url, sha) =>
      if w.cacheFile(url) in h.templates then Next(h)
      else if Downloadable(w, url, sha) then
        Next(h.(templates := h.templates[w.cacheFile(url) := w.fetch(url).value]))
      else Stop(ServerError)
    case CreateVolume(disk, volume) =>
      if disk in h.volumes then Next(h) else Next(h.(volumes := h.volumes[disk := volume]))
    case MakeSeedDir(vm) =>
      if vm in h.seeds then Next(h) else Next(SetSeed(h, vm, Seed(None, None, None)))
    case WriteUserData(vm, text) =>
      if vm in h.seeds then Next(SetSeed(h, vm, h.seeds[vm].(userData := Some(text)))) else Stop(ServerError)
    case WriteMetaData(vm, text) =>
      if vm in h.seeds then Next(SetSeed(h, vm, h.seeds[vm].(metaData := Some(text)))) else Stop(ServerError)
    case BuildIso(vm) =>
      if vm in h.seeds && h.seeds[vm].userData.Some? && h.seeds[vm].metaData.Some? then
        Next(SetSeed(h, vm, h.seeds[vm].(iso := Some((h.seeds[vm].userData.value, h.seeds[vm].metaData.value)))))
      else Stop(ServerError)
    case Define(vm, spec) =>
      if vm in h.domains then Next(h) else Next(SetDomain(h, vm, Domain(spec, ShutOff)))
    case EnsureRunning(vm) =>
      if vm !in h.domains || h.domains[vm].state in {Paused, Transient} then Stop(ServerError)
      else Next(SetDomain(h, vm, h.domains[vm].(state := Running)))
    case StopDomain(vm) =>
      if vm in h.domains && h.domains[vm].state == Running then
        Next(SetDomain(h, vm, h.domains[vm].(state := ShutOff)))
      else Next(h)
    case Undefine(vm) =>
      if InState(h, vm, ShutOff) then Next(h.(domains := h.domains - {vm}))
      else if InState(h, vm, Paused) then Next(SetDomain(h, vm, h.domains[vm].(state := Transient)))
      else if InState(h, vm, Transient) then Stop(ServerError)
      else Next(h)
    case DeleteVolume(disk) => Next(h.(volumes := h.volumes - {disk}))
    case DeleteSeed(vm) => Next(h.(seeds := h.seeds - {vm}))
  }

  /** How far a list of effects got: the host reached, the effects still allowed before the
    * process is cut off, and the final status unless all effects were performed. */
  datatype Progress = Progress(host: Host, budget: nat, status: Option<Status>)

  function Run(w: Outside, h: Host, plan: seq<Effect>, budget: nat): Progress
    decreases plan
  {
    if plan == [] then Progress(h, budget, None)
    else if budget == 0 then Progress(h, 0, Some(Interrupted))
    else match Step(w, h, plan[0])
      case Stop(s) => Progress(h, budget - 1, Some(s))
      case Next(h') => Run(w, h', plan[1..], budget - 1)
  }

  lemma {:induction false} RunAppend(w: Outside, h: Host, p: seq<Effect>, q: seq<Effect>, budget: nat)
    ensures var r := Run(w, h, p, budget);
      Run(w, h, p + q, budget) == if r.status.Some? then r else Run(w, r.host, q, r.budget)
    decreases p
  {
    if p == [] {
      assert p + q == q;
    } else if budget > 0 && Step(w, h, p[0]).Next? {
      assert (p + q)[1..] == p[1..] + q;
      RunAppend(w, Step(w, h, p[0]).host, p[1..], q, budget - 1);
    }
  }

  lemma RunOne(w: Outside, h: Host, e: Effect, budget: nat)
    requires budget >= 1
    ensures Run(w, h, [e], budget)
         == match Step(w, h, e)
            case Stop(s) => Progress(h, budget - 1, Some(s))
            case Next(h') => Progress(h', budget - 1, None)
  {
    assert [e][1..] == [];
  }

  lemma RunTwo(w: Outside, h: Host, e: Effect, f: Effect, budget: nat)
    requires budget >= 2
    ensures Run(w, h, [e, f], budget)
         == match Step(w, h, e)
            case Stop(s) => Progress(h, budget - 1, Some(s))
            case Next(h') => Run(w, h', [f], budget - 1)
  {
    assert [e, f][1..] == [f];
  }

  // ---------------------------------------------------------------------------
  // The plans of handleCreateVm and handleDeleteVm

  predicate HeadAccepted(req: CreateReq) {
    ValidName(req.name) && 1 <= req.hardware.vcpus <= 128 && 256 <= req.hardware.memoryMb <= 0x10_0000
    && req.disks != []
  }

  predicate DiskAccepted(d: DiskReq, i: nat) {
    ValidName(d.name) && 1 <= d.sizeGb <= 16384 && i < MAX_DISKS
  }

  function BridgeOf(w: Outside, n: NicReq): string { if n.bridge == "" then w.defaultBridge else n.bridge }

  predicate NicAccepted(w: Outside, n: NicReq) { ValidBridge(BridgeOf(w, n)) && ValidMac(n.mac) }

  function VolumeOf(w: Outside, d: DiskReq): Volume {
    Volume(d.sizeGb, if d.templateUrl == "" then None else Some(w.cacheFile(d.templateUrl)))
  }

  function DiskSteps(w: Outside, d: DiskReq, i: nat): seq<Effect> {
    if !DiskAccepted(d, i) then [Reject]
    else if d.templateUrl == "" then [CreateVolume(d.name, VolumeOf(w, d))]
    else [Template(d.templateUrl, d.templateSha), CreateVolume(d.name, VolumeOf(w, d))]
  }

  function DiskPlan(w: Outside, disks: seq<DiskReq>, i: nat): seq<Effect> {
    if disks == [] then [] else DiskSteps(w, disks[0], i) + DiskPlan(w, disks[1..], i + 1)
  }

  function KeyLines(w: Outside, keys: seq<string>): string {
    if keys == [] then "" else "  - " + w.trim(keys[0]) + "\n" + KeyLines(w, keys[1..])
  }

  function UserDataOf(w: Outside, req: CreateReq): string {
    if req.userData != "" then req.userData
    else "#cloud-config\n"
         + (if req.sshKeys == [] then "" else "ssh_authorized_keys:\n" + KeyLines(w, req.sshKeys))
         + "package_update: true\n"
  }

  function MetaDataOf(req: CreateReq): string {
    "instance-id: " + req.name + "\nlocal-hostname: " + req.hostname + "\n"
  }

  function SeedPlan(w: Outside, req: CreateReq): seq<Effect> {
    [MakeSeedDir(req.name), WriteUserData(req.name, UserDataOf(w, req)),
     WriteMetaData(req.name, MetaDataOf(req)), BuildIso(req.name)]
  }

  predicate NicsAccepted(w: Outside, nics: seq<NicReq>) { forall n :: n in nics ==> NicAccepted(w, n) }

  function VolumePath(disk: string): string { disk + ".qcow2" }

  function SeedPath(vm: string): string { vm + "/seed.iso" }

  function DevName(i: nat): string
    requires i < MAX_DISKS
  {
    ["vda", "vdb", "vdc", "vdd", "vde", "vdf", "vdg", "vdh"][i]
  }

  function SpecDisks(disks: seq<DiskReq>): (r: seq<Disk>)
    requires |disks| <= MAX_DISKS
    ensures |r| == |disks|
  {
    seq(|disks|, i requires 0 <= i < |disks| => Disk(VolumePath(disks[i].name), DevName(i), false))
  }

  function SpecNics(w: Outside, nics: seq<NicReq>): (r: seq<Nic>)
    ensures |r| == |nics|
  {
    seq(|nics|, i requires 0 <= i < |nics| => Nic(nics[i].mac, BridgeOf(w, nics[i]), nics[i].vlanTag))
  }

  function SpecOf(w: Outside, req: CreateReq): DomainSpec
    requires |req.disks| <= MAX_DISKS
  {
    DomainSpec(req.name, req.hardware, SpecDisks(req.disks) + [Disk(SeedPath(req.name), "sda", true)],
               SpecNics(w, req.nics))
  }

  /** What remains once every disk was accepted; more than eight disks never get this far. */
  function TailPlan(w: Outside, req: CreateReq): seq<Effect> {
    if |req.disks| > MAX_DISKS then []
    else SeedPlan(w, req)
         + if NicsAccepted(w, req.nics) then [Define(req.name, SpecOf(w, req)), EnsureRunning(req.name)] else [Reject]
  }

  function CreatePlan(w: Outside, req: CreateReq): seq<Effect> {
    if !HeadAccepted(req) then [Reject] else DiskPlan(w, req.disks, 0) + TailPlan(w, req)
  }

  function DeleteVolumes(vm: string, i: nat): seq<Effect>
    requires i <= MAX_DISKS
    decreases MAX_DISKS - i
  {
    if i == MAX_DISKS then [] else [DeleteVolume(DiskName(vm, i))] + DeleteVolumes(vm, i + 1)
  }

  function DeletePlan(vm: string): seq<Effect> {
    if !ValidName(vm) then [Reject]
    else [StopDomain(vm), Undefine(vm)] + DeleteVolumes(vm, 0) + [DeleteSeed(vm)]
  }
}
