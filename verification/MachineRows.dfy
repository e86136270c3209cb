/**
  * The panel's creation and card removal as it runs without interference, on the rows it
  * updates; when it succeeds; and that the interleaved machine contains it.
  */
module MachineRows {
  import opened Basics
  import opened AddressClaims
  import opened Names

  /** The claims of the cards from k on: each takes the first address still free. */
  function Assign(rows: seq<Row>, wants: seq<Option<PoolId>>, nics: seq<NicId>, k: nat, claims: map<nat, NicId>)
    : Option<map<nat, NicId>>
    requires |nics| == |wants| && k <= |wants|
    decreases |wants| - k
  {
    if k == |wants| then Some(claims)
    else if wants[k].None? then Assign(rows, wants, nics, k + 1, claims)
    else match FirstFree(rows, claims, wants[k].value, 0)
      case None => None
      case Some(i) => Assign(rows, wants, nics, k + 1, claims[i := nics[k]])
  }

  // ---------------------------------------------------------------------------
  // When there are enough addresses

  ghost function FreeRows(rows: seq<Row>, claims: map<nat, NicId>, pool: PoolId): set<nat> {
    set i: nat | i < |rows| && FreeFor(rows, claims, pool, i)
  }

  /** How many cards from k on want an address of the pool. */
  function Wanting(wants: seq<Option<PoolId>>, pool: PoolId, k: nat): nat
    requires k <= |wants|
    decreases |wants| - k
  {
    if k == |wants| then 0 else (if wants[k] == Some(pool) then 1 else 0) + Wanting(wants, pool, k + 1)
  }

  ghost predicate Enough(rows: seq<Row>, wants: seq<Option<PoolId>>, k: nat, claims: map<nat, NicId>)
    requires k <= |wants|
  {
    forall pool :: Wanting(wants, pool, k) <= |FreeRows(rows, claims, pool)|
  }

  lemma TakeOne(rows: seq<Row>, claims: map<nat, NicId>, pool: PoolId, i: nat, nic: NicId)
    requires FreeFor(rows, claims, pool, i)
    ensures |FreeRows(rows, claims[i := nic], pool)| == |FreeRows(rows, claims, pool)| - 1
    ensures forall p :: p != pool ==> FreeRows(rows, claims[i := nic], p) == FreeRows(rows, claims, p)
  {
    assert FreeRows(rows, claims[i := nic], pool) == FreeRows(rows, claims, pool) - {i};
  }

  lemma NoneFree(rows: seq<Row>, claims: map<nat, NicId>, pool: PoolId)
    requires FirstFree(rows, claims, pool, 0).None?
    ensures FreeRows(rows, claims, pool) == {}
  {
  }

  /** An undisturbed creation finds all its addresses exactly when every pool has at least as
    * many free unreserved addresses as cards that want one. */
  lemma {:induction false} AssignsIffEnough(
      rows: seq<Row>, wants: seq<Option<PoolId>>, nics: seq<NicId>, k: nat, claims: map<nat, NicId>)
    requires |nics| == |wants| && k <= |wants|
    ensures Assign(rows, wants, nics, k, claims).Some? <==> Enough(rows, wants, k, claims)
    decreases |wants| - k
  {
    if k < |wants| && wants[k].None? {
      AssignsIffEnough(rows, wants, nics, k + 1, claims);
      assert forall pool :: Wanting(wants, pool, k) == Wanting(wants, pool, k + 1);
    } else if k < |wants| {
      var pool := wants[k].value;
      match FirstFree(rows, claims, pool, 0)
      case None =>
        NoneFree(rows, claims, pool);
        assert Wanting(wants, pool, k) >= 1;
      case Some(i) =>
        var claims' := claims[i := nics[k]];
        TakeOne(rows, claims, pool, i, nics[k]);
        AssignsIffEnough(rows, wants, nics, k + 1, claims');
        assert forall p :: Wanting(wants, p, k) == (if p == pool then 1 else 0) + Wanting(wants, p, k + 1);
        EnoughShift(rows, wants, k, claims, claims', pool);
    }
  }

  lemma EnoughShift(
      rows: seq<Row>, wants: seq<Option<PoolId>>, k: nat, claims: map<nat, NicId>, claims': map<nat, NicId>,
      pool: PoolId)
    requires k < |wants| && wants[k] == Some(pool)
    requires |FreeRows(rows, claims', pool)| == |FreeRows(rows, claims, pool)| - 1
    requires forall p :: p != pool ==> FreeRows(rows, claims', p) == FreeRows(rows, claims, p)
    ensures Enough(rows, wants, k, claims) <==> Enough(rows, wants, k + 1, claims')
  {
    forall p
      ensures Wanting(wants, p, k) <= |FreeRows(rows, claims, p)|
         <==> Wanting(wants, p, k + 1) <= |FreeRows(rows, claims', p)|
    {
    }
  }

  // ---------------------------------------------------------------------------
  // Which addresses the cards get

  /** Every claim is for a card up to k and of the pool it wants, on a row free and unreserved. */
  ghost predicate ClaimsWanted(
      rows: seq<Row>, wants: seq<Option<PoolId>>, nics: seq<NicId>, k: nat, claims: map<nat, NicId>)
  {
    forall i :: i in claims ==>
      && i < |rows| && rows[i].nic == None && !rows[i].reserved
      && exists m :: 0 <= m < k && m < |wants| && m < |nics| && claims[i] == nics[m] && wants[m] == Some(rows[i].pool)
  }

  /** Every card up to k that wants an address has claimed one. */
  ghost predicate CardsClaim(wants: seq<Option<PoolId>>, nics: seq<NicId>, k: nat, claims: map<nat, NicId>) {
    forall m :: 0 <= m < k && m < |wants| && m < |nics| && wants[m].Some? ==>
      exists i :: i in claims && claims[i] == nics[m]
  }

  ghost predicate OneEach(claims: map<nat, NicId>) {
    forall i, j :: i in claims && j in claims && claims[i] == claims[j] ==> i == j
  }

  predicate FreeIn(rows: seq<Row>, pool: PoolId, j: nat) {
    j < |rows| && rows[j].pool == pool && rows[j].nic == None && !rows[j].reserved
  }

  /** No free unreserved row before a claimed one of its pool is passed over. */
  ghost predicate LowestFirst(rows: seq<Row>, claims: map<nat, NicId>) {
    forall i: nat, j: nat :: i in claims && j < i < |rows| && FreeIn(rows, rows[i].pool, j) ==> j in claims
  }

  ghost predicate Allotted(
      rows: seq<Row>, wants: seq<Option<PoolId>>, nics: seq<NicId>, k: nat, claims: map<nat, NicId>)
  {
    ClaimsWanted(rows, wants, nics, k, claims) && CardsClaim(wants, nics, k, claims)
    && OneEach(claims) && LowestFirst(rows, claims)
  }

  lemma NewestUnclaimed(
      rows: seq<Row>, wants: seq<Option<PoolId>>, nics: seq<NicId>, k: nat, claims: map<nat, NicId>)
    requires ClaimsWanted(rows, wants, nics, k, claims) && k < |nics| && Distinct(nics)
    ensures forall i :: i in claims ==> claims[i] != nics[k]
  {
  }

  lemma AllotOne(
      rows: seq<Row>, wants: seq<Option<PoolId>>, nics: seq<NicId>, k: nat, claims: map<nat, NicId>, i: nat)
    requires Allotted(rows, wants, nics, k, claims) && |nics| == |wants| && k < |wants| && Distinct(nics)
    requires wants[k].Some? && FirstFree(rows, claims, wants[k].value, 0) == Some(i)
    ensures Allotted(rows, wants, nics, k + 1, claims[i := nics[k]])
  {
    var claims' := claims[i := nics[k]];
    NewestUnclaimed(rows, wants, nics, k, claims);
    forall m | 0 <= m < k + 1 && wants[m].Some? ensures exists j :: j in claims' && claims'[j] == nics[m] {
      if m < k {
        var j :| j in claims && claims[j] == nics[m];
        assert j in claims' && claims'[j] == nics[m];
      } else {
        assert claims'[i] == nics[m];
      }
    }
    forall a: nat, b: nat | a in claims' && b < a < |rows| && FreeIn(rows, rows[a].pool, b) ensures b in claims'
    {
      if a == i { assert !FreeFor(rows, claims, wants[k].value, b); }
    }
  }

  lemma {:induction false} AssignAllots(
      rows: seq<Row>, wants: seq<Option<PoolId>>, nics: seq<NicId>, k: nat, claims: map<nat, NicId>)
    requires |nics| == |wants| && k <= |wants| && Distinct(nics)
    requires Allotted(rows, wants, nics, k, claims) && Assign(rows, wants, nics, k, claims).Some?
    ensures Allotted(rows, wants, nics, |wants|, Assign(rows, wants, nics, k, claims).value)
    decreases |wants| - k
  {
    if k < |wants| && wants[k].None? {
      AssignAllots(rows, wants, nics, k + 1, claims);
    } else if k < |wants| {
      var i := FirstFree(rows, claims, wants[k].value, 0).value;
      AllotOne(rows, wants, nics, k, claims, i);
      AssignAllots(rows, wants, nics, k + 1, claims[i := nics[k]]);
    }
  }

  /** The rows that an undisturbed creation leaves: a row has changed only if it was free and
    * unreserved, and now belongs to a card that wanted an address of its pool; every card that
    * wanted one has exactly one; and no lower free row of a pool was passed over. */
  ghost predicate AllServed(rows: seq<Row>, rows': seq<Row>, wants: seq<Option<PoolId>>, nics: seq<NicId>)
    requires |nics| == |wants| && |rows'| == |rows|
  {
    && (forall i :: 0 <= i < |rows| && rows'[i] != rows[i] ==>
          rows[i].nic == None && !rows[i].reserved
          && exists m :: 0 <= m < |wants| && wants[m] == Some(rows[i].pool)
               && rows'[i] == rows[i].(nic := Some(nics[m])))
    && (forall m :: 0 <= m < |wants| && wants[m].Some? ==>
          exists i :: 0 <= i < |rows| && rows'[i] != rows[i] && rows'[i].nic == Some(nics[m]))
    && (forall i, j :: 0 <= i < j < |rows| && rows'[i] != rows[i] && rows'[j] != rows[j] ==>
          rows'[i].nic != rows'[j].nic)
    && (forall i, j :: 0 <= j < i < |rows| && rows'[i] != rows[i] && FreeIn(rows, rows[i].pool, j) ==>
          rows'[j] != rows[j])
  }

  lemma WrittenServes(rows: seq<Row>, wants: seq<Option<PoolId>>, nics: seq<NicId>, claims: map<nat, NicId>)
    requires |nics| == |wants| && Allotted(rows, wants, nics, |wants|, claims)
    ensures AllServed(rows, Written(rows, claims), wants, nics)
  {
    var rows' := Written(rows, claims);
    assert forall i: nat :: i < |rows| ==> (rows'[i] != rows[i] <==> i in claims);
    assert forall i: nat :: i < |rows| && i in claims ==> rows'[i] == rows[i].(nic := Some(claims[i]));
    forall m | 0 <= m < |wants| && wants[m].Some?
      ensures exists i :: 0 <= i < |rows| && rows'[i] != rows[i] && rows'[i].nic == Some(nics[m])
    {
      var i :| i in claims && claims[i] == nics[m];
      assert rows'[i].nic == Some(nics[m]);
    }
  }

  /** What the service writes serves the cards. */
  lemma CreationServes(rows: seq<Row>, wants: seq<Option<PoolId>>, nics: seq<NicId>)
    requires |nics| == |wants| && Distinct(nics) && Assign(rows, wants, nics, 0, map[]).Some?
    ensures AllServed(rows, Written(rows, Assign(rows, wants, nics, 0, map[]).value), wants, nics)
  {
    AssignAllots(rows, wants, nics, 0, map[]);
    WrittenServes(rows, wants, nics, Assign(rows, wants, nics, 0, map[]).value);
  }

  // ---------------------------------------------------------------------------
  // The service

  datatype Outcome = Created | NameTaken | NoNode | NoStoragePool | NoFreeAddress

  datatype Removal = Removed | NotFound | LastCard

  function VolumeNames(vm: string, count: nat): (names: seq<string>)
    ensures |names| == count && forall i :: 0 <= i < count ==> names[i] == vm + "-disk" + Decimal(i)
  {
    if count == 0 then [] else VolumeNames(vm, count - 1) + [DiskName(vm, count - 1)]
  }

  function NewCards(vm: string, nics: seq<NicId>): map<NicId, string> { map n | n in nics :: vm }

  class Service {
    var rows: seq<Row>
    var vms: map<string, seq<string>>
    var nics: map<NicId, string>

    constructor (rows: seq<Row>)
      ensures this.rows == rows && vms == map[] && nics == map[]
    {
      this.rows, vms, nics := rows, map[], map[];
    }

    /** One creation, its transaction undisturbed: whether a node was found, whether each disk's
      * storage pool exists there, the cards wanted and their identifiers. */
    method Create(vm: string, nodeFound: bool, disks: seq<bool>, wants: seq<Option<PoolId>>, ids: seq<NicId>)
      returns (outcome: Outcome)
      requires |ids| == |wants|
      modifies this
      ensures outcome == (if vm in old(vms) then NameTaken
                          else if !nodeFound then NoNode
                          else if false in disks then NoStoragePool
                          else if Assign(old(rows), wants, ids, 0, map[]).Some? then Created else NoFreeAddress)
      ensures outcome == Created ==>
        && rows == Written(old(rows), Assign(old(rows), wants, ids, 0, map[]).value)
        && vms == old(vms)[vm := VolumeNames(vm, |disks|)]
        && nics == old(nics) + NewCards(vm, ids)
      ensures outcome == Created ==>
        && (forall n :: n in nics <==> n in old(nics) || n in ids)
        && (forall n :: n in nics ==> nics[n] == if n in ids then vm else old(nics)[n])
      ensures outcome == Created && Distinct(ids) ==> |rows| == |old(rows)| && AllServed(old(rows), rows, wants, ids)
      ensures outcome != Created ==> rows == old(rows) && vms == old(vms) && nics == old(nics)
    {
      if vm in vms { return NameTaken; }
      if !nodeFound { return NoNode; }
      var volumes := [];
      for i := 0 to |disks|
        invariant volumes == VolumeNames(vm, i) && false !in disks[..i]
      {
        if !disks[i] { return NoStoragePool; }
        volumes := volumes + [DiskName(vm, i)];
      }
      var claims: map<nat, NicId> := map[];
      for k := 0 to |wants|
        invariant Assign(rows, wants, ids, k, claims) == Assign(rows, wants, ids, 0, map[])
      {
        if wants[k].Some? {
          var ip := FirstFree(rows, claims, wants[k].value, 0);
          if ip.None? { return NoFreeAddress; }
          claims := claims[ip.value := ids[k]];
        }
      }
      if Distinct(ids) { CreationServes(rows, wants, ids); }
      rows := Written(rows, claims);
      vms := vms[vm := volumes];
      nics := nics + NewCards(vm, ids);
      outcome := Created;
    }

    /** A card is removed only from its own machine and never the last one; its addresses are
      * free afterwards, all others as before. */
    method RemoveNic(vm: string, nic: NicId) returns (result: Removal)
      modifies this
      ensures result == (if nic !in old(nics) || old(nics)[nic] != vm then NotFound
                         else if forall n :: n in old(nics) && n != nic ==> old(nics)[n] != vm then LastCard
                         else Removed)
      ensures result == Removed ==> rows == Freed(old(rows), {nic}) && nics == old(nics) - {nic} && vms == old(vms)
      ensures result == Removed ==> |rows| == |old(rows)| && forall i :: 0 <= i < |rows| ==>
        rows[i] == if old(rows)[i].nic == Some(nic) then old(rows)[i].(nic := None) else old(rows)[i]
      ensures result != Removed ==> rows == old(rows) && nics == old(nics) && vms == old(vms)
    {
      if nic !in nics || nics[nic] != vm { return NotFound; }
      var count := |CardsIn(nics, vm)|;
      AtMostOne(CardsIn(nics, vm), nic);
      OnlyCard(nics, vm, nic);
      if count <= 1 { return LastCard; }
      rows := Freed(rows, {nic});
      nics := nics - {nic};
      result := Removed;
    }
  }

  function CardsIn(nics: map<NicId, string>, vm: string): set<NicId> { set n | n in nics && nics[n] == vm }

  lemma OnlyCard(nics: map<NicId, string>, vm: string, nic: NicId)
    requires nic in nics && nics[nic] == vm
    ensures CardsIn(nics, vm) == {nic} <==> forall n :: n in nics && n != nic ==> nics[n] != vm
  {
    if CardsIn(nics, vm) == {nic} {
      forall n | n in nics && n != nic ensures nics[n] != vm { assert n !in CardsIn(nics, vm); }
    }
    if forall n :: n in nics && n != nic ==> nics[n] != vm {
      assert CardsIn(nics, vm) == {nic};
    }
  }

  lemma AtMostOne(s: set<NicId>, n: NicId)
    requires n in s
    ensures |s| <= 1 <==> s == {n}
  {
    if s != {n} {
      assert |s| == |s - {n}| + 1;
      assert s - {n} != {};
    }
  }

  // ---------------------------------------------------------------------------
  // The undisturbed creation is a run of the interleaved machine

  datatype Creation = Creation(vm: string, volumes: seq<string>, wants: seq<Option<PoolId>>, nics: seq<NicId>)

  /** The transaction after k cards. */
  ghost function AfterCards(c: Creation, k: nat, claims: map<nat, NicId>): Tx
    requires k <= |c.nics|
  {
    Tx(c.vm, c.volumes, c.wants, c.nics[..k], claims, Ready)
  }

  ghost function UsedBy(s: State, c: Creation, k: nat): set<NicId>
    requires k <= |c.nics|
  {
    s.used + set n | n in c.nics[..k]
  }

  ghost function Open(s: State, tx: TxId, c: Creation, k: nat, claims: map<nat, NicId>): State
    requires k <= |c.nics|
  {
    SetTx(s, tx, AfterCards(c, k, claims)).(used := UsedBy(s, c, k))
  }

  /** Nothing else is in progress, the name is free and the identifiers are new. */
  ghost predicate CanCreate(s: State, c: Creation) {
    s.txs == map[] && c.vm !in s.vms && |c.nics| == |c.wants|
    && Distinct(c.nics) && forall n :: n in c.nics ==> n !in s.used
  }

  lemma NewCard(s: State, c: Creation, k: nat)
    requires CanCreate(s, c) && k < |c.nics|
    ensures c.nics[..k + 1] == c.nics[..k] + [c.nics[k]]
    ensures c.nics[k] !in UsedBy(s, c, k)
    ensures UsedBy(s, c, k + 1) == UsedBy(s, c, k) + {c.nics[k]}
  {
    assert c.nics[k] in c.nics;
    assert c.nics[k] !in c.nics[..k];
  }

  /** Card k without an address. */
  lemma PlainCard(s: State, tx: TxId, c: Creation, k: nat, claims: map<nat, NicId>)
    requires CanCreate(s, c) && k < |c.wants| && c.wants[k].None?
    ensures Next(Open(s, tx, c, k, claims), CreateNic(tx, c.nics[k])) == Some(Open(s, tx, c, k + 1, claims))
  {
    NewCard(s, c, k);
    var s1 := Open(s, tx, c, k, claims);
    assert s1.txs[tx := AfterCards(c, k + 1, claims)] == Open(s, tx, c, k + 1, claims).txs;
  }

  /** The states between the card and its claim. */
  ghost function Between(s: State, tx: TxId, c: Creation, k: nat, claims: map<nat, NicId>, phase: Phase): State
    requires k < |c.nics|
  {
    SetTx(s, tx, AfterCards(c, k + 1, claims).(phase := phase)).(used := UsedBy(s, c, k + 1))
  }

  lemma SeekCard(s: State, tx: TxId, c: Creation, k: nat, claims: map<nat, NicId>)
    requires CanCreate(s, c) && k < |c.wants| && c.wants[k].Some?
    ensures Next(Open(s, tx, c, k, claims), CreateNic(tx, c.nics[k]))
         == Some(Between(s, tx, c, k, claims, Seek(c.wants[k].value)))
  {
    NewCard(s, c, k);
    var s1, s2 := Open(s, tx, c, k, claims), Between(s, tx, c, k, claims, Seek(c.wants[k].value));
    assert s1.txs[tx := s2.txs[tx]] == s2.txs;
  }

  lemma FindCard(s: State, tx: TxId, c: Creation, k: nat, claims: map<nat, NicId>)
    requires CanCreate(s, c) && k < |c.wants| && c.wants[k].Some?
    ensures var pool := c.wants[k].value;
      Next(Between(s, tx, c, k, claims, Seek(pool)), Find(tx))
        == match FirstFree(s.rows, claims, pool, 0)
           case None => Some(s.(used := UsedBy(s, c, k + 1)))
           case Some(i) => Some(Between(s, tx, c, k, claims, Found(pool, i)))
  {
    var pool := c.wants[k].value;
    var s1 := Between(s, tx, c, k, claims, Seek(pool));
    match FirstFree(s.rows, claims, pool, 0)
    case None => assert s1.txs - {tx} == s.txs;
    case Some(i) =>
      var s2 := Between(s, tx, c, k, claims, Found(pool, i));
      assert s1.txs[tx := s2.txs[tx]] == s2.txs;
  }

  lemma ClaimCard(s: State, tx: TxId, c: Creation, k: nat, claims: map<nat, NicId>, i: nat)
    requires CanCreate(s, c) && k < |c.wants| && c.wants[k].Some? && FreeFor(s.rows, claims, c.wants[k].value, i)
    ensures Next(Between(s, tx, c, k, claims, Found(c.wants[k].value, i)), Claim(tx))
         == Some(Open(s, tx, c, k + 1, claims[i := c.nics[k]]))
  {
    var s1 := Between(s, tx, c, k, claims, Found(c.wants[k].value, i));
    var s2 := Open(s, tx, c, k + 1, claims[i := c.nics[k]]);
    assert !LockedByOther(s1, tx, i);
    assert s1.txs[tx].nics[|s1.txs[tx].nics| - 1] == c.nics[k];
    assert s1.txs[tx := s2.txs[tx]] == s2.txs;
  }

  lemma CommitCards(s: State, tx: TxId, c: Creation, claims: map<nat, NicId>)
    requires CanCreate(s, c)
    ensures Next(Open(s, tx, c, |c.nics|, claims), Commit(tx)) == Some(Committed(s, c, claims))
  {
    var s1 := Open(s, tx, c, |c.nics|, claims);
    assert c.nics[..|c.nics|] == c.nics;
    assert s1.txs - {tx} == s.txs;
    assert NewCards(c.vm, c.nics) == map n | n in s1.txs[tx].nics :: c.vm;
  }

  /** The tables as the service leaves them. */
  ghost function Committed(s: State, c: Creation, claims: map<nat, NicId>): State {
    State(Written(s.rows, claims), s.vms[c.vm := c.volumes], s.nics + NewCards(c.vm, c.nics), map[],
          UsedBy(s, c, |c.nics|))
  }

  lemma {:induction false} RunFrom(s: State, tx: TxId, c: Creation, k: nat, claims: map<nat, NicId>)
      returns (events: seq<Event>)
    requires CanCreate(s, c) && k <= |c.wants|
    ensures var r := Run(Open(s, tx, c, k, claims), events); var given := Assign(s.rows, c.wants, c.nics, k, claims);
      && r.Some?
      && if given.Some? then r.value == Committed(s, c, given.value)
         else r.value == s.(used := r.value.used)
    decreases |c.wants| - k
  {
    var s0 := Open(s, tx, c, k, claims);
    if k == |c.wants| {
      CommitCards(s, tx, c, claims);
      events := [Commit(tx)];
      StepThen(s0, Commit(tx), []);
      assert events == [Commit(tx)] + [];
    } else if c.wants[k].None? {
      PlainCard(s, tx, c, k, claims);
      var rest := RunFrom(s, tx, c, k + 1, claims);
      events := [CreateNic(tx, c.nics[k])] + rest;
      StepThen(s0, CreateNic(tx, c.nics[k]), rest);
    } else {
      events := RunFromWanted(s, tx, c, k, claims);
    }
  }

  lemma {:induction false} RunFromWanted(s: State, tx: TxId, c: Creation, k: nat, claims: map<nat, NicId>)
      returns (events: seq<Event>)
    requires CanCreate(s, c) && k < |c.wants| && c.wants[k].Some?
    ensures var r := Run(Open(s, tx, c, k, claims), events); var given := Assign(s.rows, c.wants, c.nics, k, claims);
      && r.Some?
      && if given.Some? then r.value == Committed(s, c, given.value)
         else r.value == s.(used := r.value.used)
    decreases |c.wants| - k, 0
  {
    var pool := c.wants[k].value;
    var s0, s1 := Open(s, tx, c, k, claims), Between(s, tx, c, k, claims, Seek(pool));
    SeekCard(s, tx, c, k, claims);
    FindCard(s, tx, c, k, claims);
    var rest: seq<Event>;
    var ip := FirstFree(s.rows, claims, pool, 0);
    if ip.None? {
      rest := [];
      StepThen(s1, Find(tx), []);
    } else {
      var s2 := Between(s, tx, c, k, claims, Found(pool, ip.value));
      ClaimCard(s, tx, c, k, claims, ip.value);
      var later := RunFrom(s, tx, c, k + 1, claims[ip.value := c.nics[k]]);
      rest := [Claim(tx)] + later;
      StepThen(s2, Claim(tx), later);
      StepThen(s1, Find(tx), rest);
    }
    events := [CreateNic(tx, c.nics[k])] + ([Find(tx)] + rest);
    StepThen(s0, CreateNic(tx, c.nics[k]), [Find(tx)] + rest);
  }

  /** The service's creation is one of the machine's runs: it ends committed with the claims of
    * `Assign`, or rolled back with nothing left but used-up identifiers. */
  lemma CreationIsARun(s: State, tx: TxId, c: Creation) returns (events: seq<Event>)
    requires CanCreate(s, c)
    ensures var r := Run(s, events); var given := Assign(s.rows, c.wants, c.nics, 0, map[]);
      && r.Some?
      && if given.Some? then r.value == Committed(s, c, given.value)
         else r.value == s.(used := r.value.used)
  {
    var begin := Begin(tx, c.vm, c.volumes, c.wants);
    var rest := RunFrom(s, tx, c, 0, map[]);
    assert UsedBy(s, c, 0) == s.used;
    assert Next(s, begin) == Some(Open(s, tx, c, 0, map[]));
    events := [begin] + rest;
    StepThen(s, begin, rest);
  }
}
