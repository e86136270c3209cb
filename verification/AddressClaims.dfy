/**
  * Address allocation under concurrency. Creations run as database transactions that read
  * committed rows: a transaction sees its own writes and what others have committed, an update
  * waits for the lock of another transaction and then looks at the row again. The machine
  * interleaves the single statements of any number of creations with commits, rollbacks,
  * releases and deletions.
  */
module AddressClaims {
  import opened Basics

  type TxId = nat
  type NicId = nat
  type PoolId = nat

  /** A committed address row. Rows stand in ascending order of their addresses. */
  datatype Row = Row(pool: PoolId, reserved: bool, nic: Option<NicId>)

  /** Where a transaction stands in the loop over the wanted cards. */
  datatype Phase = Ready | Seek(pool: PoolId) | Found(pool: PoolId, row: nat)

  /** An open creation: its machine and volumes, the cards it wants (with or without an address
    * pool), the cards created so far, and its uncommitted claims. */
  datatype Tx = Tx(
    vm: string, volumes: seq<string>, wants: seq<Option<PoolId>>,
    nics: seq<NicId>, claims: map<nat, NicId>, phase: Phase)

  datatype State = State(
    rows: seq<Row>, vms: map<string, seq<string>>, nics: map<NicId, string>,
    txs: map<TxId, Tx>, used: set<NicId>)

  datatype Event =
    | Begin(tx: TxId, vm: string, volumes: seq<string>, wants: seq<Option<PoolId>>)
    | CreateNic(tx: TxId, nic: NicId)
    | Find(tx: TxId)
    | Claim(tx: TxId)
    | Commit(tx: TxId)
    | Abort(tx: TxId)
    | ReleaseAddresses(nic: NicId)
    | DeleteNic(nic: NicId)
    | DeleteVm(vm: string)

  // ---------------------------------------------------------------------------
  // Steps

  /** Free as the transaction sees it: no committed holder, no claim of its own. */
  predicate FreeFor(rows: seq<Row>, claims: map<nat, NicId>, pool: PoolId, i: nat) {
    i < |rows| && rows[i].pool == pool && rows[i].nic == None && !rows[i].reserved && i !in claims
  }

  /** findFirst ordered by address, from row i on. */
  function FirstFree(rows: seq<Row>, claims: map<nat, NicId>, pool: PoolId, i: nat): (r: Option<nat>)
    ensures r.Some? ==> i <= r.value && FreeFor(rows, claims, pool, r.value)
    ensures r.Some? ==> forall j :: i <= j < r.value ==> !FreeFor(rows, claims, pool, j)
    ensures r.None? ==> forall j :: i <= j ==> !FreeFor(rows, claims, pool, j)
    decreases |rows| - i
  {
    if i >= |rows| then None
    else if FreeFor(rows, claims, pool, i) then Some(i)
    else FirstFree(rows, claims, pool, i + 1)
  }

  /** Another open transaction holds the lock of the row. */
  ghost predicate LockedByOther(s: State, tx: TxId, i: nat) {
    exists t :: t in s.txs && t != tx && i in s.txs[t].claims
  }

  function SetTx(s: State, tx: TxId, t: Tx): State { s.(txs := s.txs[tx := t]) }

  function Rollback(s: State, tx: TxId): State { s.(txs := s.txs - {tx}) }

  /** The rows with the claims written. */
  function Written(rows: seq<Row>, claims: map<nat, NicId>): (r: seq<Row>)
    ensures |r| == |rows|
  {
    seq(|rows|, i requires 0 <= i < |rows| => if i in claims then rows[i].(nic := Some(claims[i])) else rows[i])
  }

  /** The rows with the addresses of the given cards set free. */
  function Freed(rows: seq<Row>, nics: set<NicId>): (r: seq<Row>)
    ensures |r| == |rows|
  {
    seq(|rows|, i requires 0 <= i < |rows| =>
      if rows[i].nic.Some? && rows[i].nic.value in nics then rows[i].(nic := None) else rows[i])
  }

  function CardsOf(s: State, vm: string): set<NicId> { set n | n in s.nics && s.nics[n] == vm }

  /** The transaction with one more card, an address sought for it if it wants one. */
  function WithCard(t: Tx, nic: NicId): Tx
    requires |t.nics| < |t.wants|
  {
    var want := t.wants[|t.nics|];
    t.(nics := t.nics + [nic], phase := if want.Some? then Seek(want.value) else Ready)
  }

  /** One statement of one party; None when the event cannot happen now. */
  ghost function Next(s: State, e: Event): Option<State> {
    match e
    case Begin(tx, vm, volumes, wants) =>
      if tx in s.txs || vm in s.vms || exists t :: t in s.txs && s.txs[t].vm == vm then None
      else Some(SetTx(s, tx, Tx(vm, volumes, wants, [], map[], Ready)))
    case CreateNic(tx, nic) =>
      if tx !in s.txs || !s.txs[tx].phase.Ready? || |s.txs[tx].nics| >= |s.txs[tx].wants| || nic in s.used then None
      else Some(SetTx(s, tx, WithCard(s.txs[tx], nic)).(used := s.used + {nic}))
    case Find(tx) =>
      if tx !in s.txs || !s.txs[tx].phase.Seek? then None
      else
        var t := s.txs[tx];
        (match FirstFree(s.rows, t.claims, t.phase.pool, 0)
         case None => Some(Rollback(s, tx))
         case Some(i) => Some(SetTx(s, tx, t.(phase := Found(t.phase.pool, i)))))
    case Claim(tx) =>
      if tx !in s.txs || !s.txs[tx].phase.Found? || s.txs[tx].nics == [] || s.txs[tx].phase.row >= |s.rows|
         || LockedByOther(s, tx, s.txs[tx].phase.row) then None
      else
        var t := s.txs[tx];
        if s.rows[t.phase.row].nic.Some? then Some(Rollback(s, tx))
        else Some(SetTx(s, tx, t.(claims := t.claims[t.phase.row := t.nics[|t.nics| - 1]], phase := Ready)))
    case Commit(tx) =>
      if tx !in s.txs || !s.txs[tx].phase.Ready? || |s.txs[tx].nics| != |s.txs[tx].wants| then None
      else
        var t := s.txs[tx];
        Some(State(Written(s.rows, t.claims), s.vms[t.vm := t.volumes],
                   s.nics + (map n | n in t.nics :: t.vm), s.txs - {tx}, s.used))
    case Abort(tx) => if tx !in s.txs then None else Some(Rollback(s, tx))
    case ReleaseAddresses(nic) =>
      if nic !in s.nics then None else Some(s.(rows := Freed(s.rows, {nic})))
    case DeleteNic(nic) =>
      if nic !in s.nics then None else Some(s.(rows := Freed(s.rows, {nic}), nics := s.nics - {nic}))
    case DeleteVm(vm) =>
      if vm !in s.vms then None
      else Some(s.(rows := Freed(s.rows, CardsOf(s, vm)), nics := s.nics - CardsOf(s, vm), vms := s.vms - {vm}))
  }

  /** The state after a run, None if some event could not happen. */
  ghost function Run(s: State, events: seq<Event>): Option<State>
    decreases |events|
  {
    if events == [] then Some(s)
    else match Next(s, events[0]) case None => None case Some(s') => Run(s', events[1..])
  }

  lemma {:induction false} RunSteps(s: State, events: seq<Event>, more: seq<Event>)
    requires Run(s, events).Some?
    ensures Run(s, events + more) == Run(Run(s, events).value, more)
    decreases |events|
  {
    if events == [] {
      assert events + more == more;
    } else {
      assert (events + more)[1..] == events[1..] + more;
      RunSteps(Next(s, events[0]).value, events[1..], more);
    }
  }

  lemma StepThen(s: State, e: Event, more: seq<Event>)
    requires Next(s, e).Some?
    ensures Run(s, [e] + more) == Run(Next(s, e).value, more)
  {
    assert ([e] + more)[1..] == more;
  }

  // ---------------------------------------------------------------------------
  // The invariant

  /** The wanted cards up to k that came with a pool have exactly one claim each, in that pool. */
  ghost predicate Served(s: State, t: Tx, k: nat) {
    k < |t.nics| <= |t.wants|
    && (t.wants[k].Some? ==>
          exists i :: i in t.claims && i < |s.rows| && t.claims[i] == t.nics[k] && s.rows[i].pool == t.wants[k].value)
  }

  /** The card is one of the transaction's and asked for an address of this pool. */
  ghost predicate WantedBy(t: Tx, nic: NicId, pool: PoolId) {
    exists k :: 0 <= k < |t.nics| && k < |t.wants| && t.nics[k] == nic && t.wants[k] == Some(pool)
  }

  /** The cards of the transaction are new, and not yet committed. */
  ghost predicate CardsOk(s: State, t: Tx) {
    |t.nics| <= |t.wants| && Distinct(t.nics) && forall n :: n in t.nics ==> n in s.used && n !in s.nics
  }

  /** Claimed rows are free and unreserved; no card claims two of them. */
  ghost predicate ClaimsOk(s: State, t: Tx) {
    && (forall i :: i in t.claims ==>
          i < |s.rows| && s.rows[i].nic == None && !s.rows[i].reserved && WantedBy(t, t.claims[i], s.rows[i].pool))
    && (forall i, j :: i in t.claims && j in t.claims && t.claims[i] == t.claims[j] ==> i == j)
  }

  ghost predicate TxOk(s: State, t: Tx) { CardsOk(s, t) && ClaimsOk(s, t) && PhaseOk(s, t) }

  /** While an address is sought for the newest card, that card has no claim yet. */
  ghost predicate PhaseOk(s: State, t: Tx) {
    if t.phase.Ready? then forall k :: 0 <= k < |t.nics| ==> Served(s, t, k)
    else
      && 0 < |t.nics| <= |t.wants|
      && t.wants[|t.nics| - 1] == Some(t.phase.pool)
      && (forall i :: i in t.claims ==> t.claims[i] != t.nics[|t.nics| - 1])
      && (forall k :: 0 <= k < |t.nics| - 1 ==> Served(s, t, k))
      && (t.phase.Found? ==>
            t.phase.row < |s.rows| && !s.rows[t.phase.row].reserved && s.rows[t.phase.row].pool == t.phase.pool
            && t.phase.row !in t.claims)
  }

  ghost predicate Separate(t: Tx, u: Tx) {
    t.claims.Keys !! u.claims.Keys && (forall n :: n in t.nics ==> n !in u.nics) && t.vm != u.vm
  }

  /** Committed holders exist, hold one address each, and none that is reserved. */
  ghost predicate RowsOk(rows: seq<Row>, nics: map<NicId, string>) {
    && (forall i :: 0 <= i < |rows| && rows[i].nic.Some? ==> rows[i].nic.value in nics && !rows[i].reserved)
    && (forall i, j :: 0 <= i < j < |rows| && rows[i].nic.Some? ==> rows[i].nic != rows[j].nic)
  }

  ghost predicate Apart(txs: map<TxId, Tx>) {
    forall x, y :: x in txs && y in txs && x != y ==> Separate(txs[x], txs[y])
  }

  ghost predicate TxsOk(s: State) { forall x :: x in s.txs ==> TxOk(s, s.txs[x]) && s.txs[x].vm !in s.vms }

  ghost predicate Inv(s: State) {
    RowsOk(s.rows, s.nics) && Apart(s.txs) && TxsOk(s) && forall n :: n in s.nics ==> n in s.used
  }

  // ---------------------------------------------------------------------------
  // Every step keeps the invariant

  /** No statement adds or removes addresses, moves them to another pool or reserves them. */
  ghost predicate SameAddresses(s: State, s': State) {
    |s'.rows| == |s.rows|
    && forall i :: 0 <= i < |s.rows| ==> s'.rows[i].pool == s.rows[i].pool && s'.rows[i].reserved == s.rows[i].reserved
  }

  /** What a step must leave of a transaction it does not concern. */
  lemma TxOkFrame(s: State, s': State, u: Tx)
    requires TxOk(s, u) && SameAddresses(s, s') && s.used <= s'.used
    requires forall i :: i in u.claims ==> s'.rows[i].nic == None
    requires forall n :: n in u.nics ==> n !in s'.nics
    ensures TxOk(s', u)
  {
    forall k | 0 <= k < |u.nics| && Served(s, u, k) ensures Served(s', u, k) {
      if u.wants[k].Some? {
        var i :| i in u.claims && i < |s.rows| && u.claims[i] == u.nics[k] && s.rows[i].pool == u.wants[k].value;
        assert s'.rows[i].pool == s.rows[i].pool;
      }
    }
  }

  lemma ApartUpdate(txs: map<TxId, Tx>, tx: TxId, t: Tx)
    requires Apart(txs) && forall x :: x in txs && x != tx ==> Separate(t, txs[x])
    ensures Apart(txs[tx := t])
  {
    var txs' := txs[tx := t];
    forall x, y | x in txs' && y in txs' && x != y ensures Separate(txs'[x], txs'[y]) {
      if y == tx { assert Separate(t, txs[x]); }
    }
  }

  /** Opening a transaction, or replacing one, by one in order that stays apart from the rest. */
  lemma SetTxKeeps(s: State, tx: TxId, t: Tx, used: set<NicId>)
    requires Inv(s) && s.used <= used && t.vm !in s.vms
    requires TxOk(SetTx(s, tx, t).(used := used), t)
    requires forall x :: x in s.txs && x != tx ==> Separate(t, s.txs[x])
    ensures Inv(SetTx(s, tx, t).(used := used))
  {
    var s' := SetTx(s, tx, t).(used := used);
    ApartUpdate(s.txs, tx, t);
    forall x | x in s'.txs ensures TxOk(s', s'.txs[x]) && s'.txs[x].vm !in s'.vms {
      if x != tx { TxOkFrame(s, s', s.txs[x]); }
    }
  }

  lemma BeginKeeps(s: State, tx: TxId, vm: string, volumes: seq<string>, wants: seq<Option<PoolId>>)
    requires Inv(s) && Next(s, Begin(tx, vm, volumes, wants)).Some?
    ensures Inv(Next(s, Begin(tx, vm, volumes, wants)).value)
  {
    SetTxKeeps(s, tx, Tx(vm, volumes, wants, [], map[], Ready), s.used);
  }

  lemma RollbackKeeps(s: State, tx: TxId)
    requires Inv(s)
    ensures Inv(Rollback(s, tx))
  {
    var s' := Rollback(s, tx);
    forall x | x in s'.txs ensures TxOk(s', s'.txs[x]) && s'.txs[x].vm !in s'.vms { TxOkFrame(s, s', s.txs[x]); }
    assert Apart(s'.txs);
  }

  lemma WantedByGrows(t: Tx, t': Tx, nic: NicId, pool: PoolId)
    requires WantedBy(t, nic, pool) && t'.wants == t.wants && t.nics <= t'.nics
    ensures WantedBy(t', nic, pool)
  {
    var k :| 0 <= k < |t.nics| && k < |t.wants| && t.nics[k] == nic && t.wants[k] == Some(pool);
    assert t'.nics[k] == nic;
  }

  lemma ServedGrows(s: State, s': State, t: Tx, t': Tx, k: nat)
    requires Served(s, t, k) && s'.rows == s.rows && t'.wants == t.wants && t.nics <= t'.nics && |t'.nics| <= |t.wants|
    requires forall i :: i in t.claims ==> i in t'.claims && t'.claims[i] == t.claims[i]
    ensures Served(s', t', k)
  {
    if t.wants[k].Some? {
      var i :| i in t.claims && i < |s.rows| && t.claims[i] == t.nics[k] && s.rows[i].pool == t.wants[k].value;
      assert i in t'.claims && t'.claims[i] == t'.nics[k];
    }
  }

  /** Claims stay in order when the transaction only gains cards. */
  lemma ClaimsOkGrows(s: State, s': State, t: Tx, t': Tx)
    requires ClaimsOk(s, t) && s'.rows == s.rows && t'.wants == t.wants && t.nics <= t'.nics && t'.claims == t.claims
    ensures ClaimsOk(s', t')
  {
    forall i | i in t'.claims ensures WantedBy(t', t'.claims[i], s'.rows[i].pool) {
      WantedByGrows(t, t', t.claims[i], s.rows[i].pool);
    }
  }

  lemma NewCardUnclaimed(s: State, t: Tx, nic: NicId)
    requires ClaimsOk(s, t) && nic !in t.nics
    ensures forall i :: i in t.claims ==> t.claims[i] != nic
  {
    forall i | i in t.claims ensures t.claims[i] != nic { assert WantedBy(t, t.claims[i], s.rows[i].pool); }
  }

  lemma CreateNicTxOk(s: State, s': State, t: Tx, nic: NicId)
    requires TxOk(s, t) && t.phase.Ready? && |t.nics| < |t.wants| && nic !in s.used && nic !in s.nics
    requires s'.rows == s.rows && s'.nics == s.nics && s'.used == s.used + {nic}
    ensures TxOk(s', WithCard(t, nic))
  {
    var t' := WithCard(t, nic);
    assert CardsOk(s', t');
    ClaimsOkGrows(s, s', t, t');
    NewCardUnclaimed(s, t, nic);
    forall k | 0 <= k < |t.nics| ensures Served(s', t', k) { ServedGrows(s, s', t, t', k); }
  }

  lemma CreateNicKeeps(s: State, tx: TxId, nic: NicId)
    requires Inv(s) && Next(s, CreateNic(tx, nic)).Some?
    ensures Inv(Next(s, CreateNic(tx, nic)).value)
  {
    var t := s.txs[tx];
    var t' := WithCard(t, nic);
    CreateNicTxOk(s, SetTx(s, tx, t').(used := s.used + {nic}), t, nic) by { assert TxOk(s, t); }
    forall x | x in s.txs && x != tx ensures Separate(t', s.txs[x]) {
      assert Separate(t, s.txs[x]) && TxOk(s, s.txs[x]);
    }
    SetTxKeeps(s, tx, t', s.used + {nic});
  }

  lemma FindKeeps(s: State, tx: TxId)
    requires Inv(s) && Next(s, Find(tx)).Some?
    ensures Inv(Next(s, Find(tx)).value)
  {
    var t := s.txs[tx];
    match FirstFree(s.rows, t.claims, t.phase.pool, 0)
    case None => RollbackKeeps(s, tx);
    case Some(i) =>
      var t' := t.(phase := Found(t.phase.pool, i));
      var s' := SetTx(s, tx, t');
      assert TxOk(s, t);
      ClaimsOkGrows(s, s', t, t');
      forall k | 0 <= k < |t.nics| - 1 ensures Served(s', t', k) { ServedGrows(s, s', t, t', k); }
      forall x | x in s.txs && x != tx ensures Separate(t', s.txs[x]) { assert Separate(t, s.txs[x]); }
      SetTxKeeps(s, tx, t', s.used);
  }

  lemma ClaimClaimsOk(s: State, s': State, t: Tx, row: nat)
    requires ClaimsOk(s, t) && s'.rows == s.rows
    requires 0 < |t.nics| <= |t.wants| && row < |s.rows| && s.rows[row].nic == None && !s.rows[row].reserved
    requires t.wants[|t.nics| - 1] == Some(s.rows[row].pool)
    requires forall i :: i in t.claims ==> t.claims[i] != t.nics[|t.nics| - 1]
    ensures ClaimsOk(s', t.(claims := t.claims[row := t.nics[|t.nics| - 1]], phase := Ready))
  {
    var t' := t.(claims := t.claims[row := t.nics[|t.nics| - 1]], phase := Ready);
    assert t'.nics[|t.nics| - 1] == t'.claims[row];
    forall i | i in t'.claims ensures WantedBy(t', t'.claims[i], s'.rows[i].pool) {
      if i != row { WantedByGrows(t, t', t.claims[i], s.rows[i].pool); }
    }
  }

  lemma NewestServed(s: State, t: Tx, row: nat)
    requires 0 < |t.nics| <= |t.wants| && row in t.claims && row < |s.rows|
    requires t.claims[row] == t.nics[|t.nics| - 1] && t.wants[|t.nics| - 1] == Some(s.rows[row].pool)
    ensures Served(s, t, |t.nics| - 1)
  {
  }

  lemma ClaimTxOk(s: State, s': State, t: Tx)
    requires TxOk(s, t) && t.phase.Found? && s.rows[t.phase.row].nic == None
    requires s'.rows == s.rows && s'.nics == s.nics && s'.used == s.used
    ensures TxOk(s', t.(claims := t.claims[t.phase.row := t.nics[|t.nics| - 1]], phase := Ready))
  {
    var t', last := t.(claims := t.claims[t.phase.row := t.nics[|t.nics| - 1]], phase := Ready), |t.nics| - 1;
    ClaimClaimsOk(s, s', t, t.phase.row);
    NewestServed(s', t', t.phase.row);
    forall k | 0 <= k < last ensures Served(s', t', k) { ServedGrows(s, s', t, t', k); }
  }

  lemma ClaimSeparate(s: State, tx: TxId, row: nat, t': Tx, x: TxId)
    requires Apart(s.txs) && tx in s.txs && x in s.txs && x != tx && !LockedByOther(s, tx, row)
    requires t'.claims.Keys == s.txs[tx].claims.Keys + {row} && t'.nics == s.txs[tx].nics && t'.vm == s.txs[tx].vm
    ensures Separate(t', s.txs[x])
  {
    assert Separate(s.txs[tx], s.txs[x]);
    assert row !in s.txs[x].claims;
  }

  lemma ClaimKeeps(s: State, tx: TxId)
    requires Inv(s) && Next(s, Claim(tx)).Some?
    ensures Inv(Next(s, Claim(tx)).value)
  {
    var t := s.txs[tx];
    if s.rows[t.phase.row].nic.Some? {
      RollbackKeeps(s, tx);
    } else {
      var t' := t.(claims := t.claims[t.phase.row := t.nics[|t.nics| - 1]], phase := Ready);
      ClaimTxOk(s, SetTx(s, tx, t'), t) by { assert TxOk(s, t); }
      forall x | x in s.txs && x != tx ensures Separate(t', s.txs[x]) {
        ClaimSeparate(s, tx, t.phase.row, t', x);
      }
      SetTxKeeps(s, tx, t', s.used);
    }
  }

  lemma CommitRows(s: State, tx: TxId)
    requires Inv(s) && Next(s, Commit(tx)).Some?
    ensures var s' := Next(s, Commit(tx)).value; var t := s.txs[tx];
      && SameAddresses(s, s')
      && (forall i :: 0 <= i < |s.rows| ==>
            s'.rows[i].nic == if i in t.claims then Some(t.claims[i]) else s.rows[i].nic)
      && (forall n :: n in s'.nics <==> n in s.nics || n in t.nics)
  {
  }

  lemma CommitRowsOk(s: State, tx: TxId)
    requires Inv(s) && Next(s, Commit(tx)).Some?
    ensures RowsOk(Next(s, Commit(tx)).value.rows, Next(s, Commit(tx)).value.nics)
  {
    var t, s' := s.txs[tx], Next(s, Commit(tx)).value;
    CommitRows(s, tx);
    assert TxOk(s, t);
    ClaimedCards(s, t);
    forall i, j | 0 <= i < j < |s'.rows| && s'.rows[i].nic.Some? ensures s'.rows[i].nic != s'.rows[j].nic {
      if i in t.claims && j !in t.claims {
        assert t.claims[i] !in s.nics;
      } else if j in t.claims && i !in t.claims {
        assert t.claims[j] !in s.nics;
      }
    }
  }

  lemma CommitKeeps(s: State, tx: TxId)
    requires Inv(s) && Next(s, Commit(tx)).Some?
    ensures Inv(Next(s, Commit(tx)).value)
  {
    var t, s' := s.txs[tx], Next(s, Commit(tx)).value;
    CommitRows(s, tx);
    CommitRowsOk(s, tx);
    assert TxOk(s, t);
    forall x | x in s'.txs ensures TxOk(s', s'.txs[x]) && s'.txs[x].vm !in s'.vms {
      assert Separate(t, s.txs[x]);
      TxOkFrame(s, s', s.txs[x]);
    }
    assert Apart(s'.txs);
  }

  /** Setting addresses of committed cards free and dropping committed cards or machines. */
  lemma FreeKeeps(s: State, cards: set<NicId>, s': State)
    requires Inv(s) && s'.rows == Freed(s.rows, cards) && s'.txs == s.txs && s'.used == s.used
    requires s'.nics.Keys == s.nics.Keys || s'.nics.Keys == s.nics.Keys - cards
    requires forall vm :: vm in s'.vms ==> vm in s.vms
    ensures Inv(s')
  {
    assert SameAddresses(s, s');
    assert RowsOk(s'.rows, s'.nics);
    forall x | x in s'.txs ensures TxOk(s', s'.txs[x]) && s'.txs[x].vm !in s'.vms { TxOkFrame(s, s', s.txs[x]); }
  }

  lemma StepKeepsInv(s: State, e: Event)
    requires Inv(s) && Next(s, e).Some?
    ensures Inv(Next(s, e).value)
  {
    var s' := Next(s, e).value;
    match e
    case Begin(tx, vm, volumes, wants) => BeginKeeps(s, tx, vm, volumes, wants);
    case CreateNic(tx, nic) => CreateNicKeeps(s, tx, nic);
    case Find(tx) => FindKeeps(s, tx);
    case Claim(tx) => ClaimKeeps(s, tx);
    case Commit(tx) => CommitKeeps(s, tx);
    case Abort(tx) => RollbackKeeps(s, tx);
    case ReleaseAddresses(nic) => FreeKeeps(s, {nic}, s');
    case DeleteNic(nic) => FreeKeeps(s, {nic}, s');
    case DeleteVm(vm) => FreeKeeps(s, CardsOf(s, vm), s');
  }

  // ---------------------------------------------------------------------------
  // Safety over whole runs

  lemma {:induction false} RunKeepsInv(s: State, events: seq<Event>)
    requires Inv(s) && Run(s, events).Some?
    ensures Inv(Run(s, events).value)
    decreases |events|
  {
    if events != [] {
      StepKeepsInv(s, events[0]);
      RunKeepsInv(Next(s, events[0]).value, events[1..]);
    }
  }

  lemma StepSameAddresses(s: State, e: Event)
    requires Next(s, e).Some?
    ensures SameAddresses(s, Next(s, e).value)
  {
  }

  lemma {:induction false} RunSameAddresses(s: State, events: seq<Event>)
    requires Run(s, events).Some?
    ensures SameAddresses(s, Run(s, events).value)
    decreases |events|
  {
    if events != [] {
      StepSameAddresses(s, events[0]);
      RunSameAddresses(Next(s, events[0]).value, events[1..]);
    }
  }

  ghost predicate Releases(s: State, e: Event, nic: NicId) {
    e == ReleaseAddresses(nic) || e == DeleteNic(nic) || (nic in s.nics && e == DeleteVm(s.nics[nic]))
  }

  /** One step never takes an address from its holder except by releasing it. */
  lemma HeldUntilReleased(s: State, e: Event, i: nat, nic: NicId)
    requires Inv(s) && Next(s, e).Some? && i < |s.rows| && s.rows[i].nic == Some(nic)
    ensures var s' := Next(s, e).value;
      if Releases(s, e, nic) then s'.rows[i].nic == None else s'.rows[i].nic == Some(nic)
  {
    if e.Commit? {
      assert TxOk(s, s.txs[e.tx]);
      CommitRows(s, e.tx);
    }
  }

  ghost predicate ReleasedWithin(s: State, events: seq<Event>, nic: NicId, k: int) {
    0 <= k < |events| && Run(s, events[..k]).Some? && Releases(Run(s, events[..k]).value, events[k], nic)
  }

  /** In every interleaving an address passes from one card to another only after a release. */
  lemma {:induction false} NeverReassignedWhileHeld(s: State, events: seq<Event>, i: nat, nic: NicId)
    requires Inv(s) && Run(s, events).Some? && i < |s.rows| && s.rows[i].nic == Some(nic)
    requires i < |Run(s, events).value.rows| ==> Run(s, events).value.rows[i].nic != Some(nic)
    ensures exists k :: ReleasedWithin(s, events, nic, k)
    decreases |events|
  {
    RunSameAddresses(s, events);
    if events != [] {
      var s' := Next(s, events[0]).value;
      StepKeepsInv(s, events[0]);
      StepSameAddresses(s, events[0]);
      HeldUntilReleased(s, events[0], i, nic);
      if Releases(s, events[0], nic) {
        assert events[..0] == [];
        assert ReleasedWithin(s, events, nic, 0);
      } else {
        NeverReassignedWhileHeld(s', events[1..], i, nic);
        var k :| ReleasedWithin(s', events[1..], nic, k);
        assert events[..k + 1][1..] == events[1..][..k];
        assert ReleasedWithin(s, events, nic, k + 1);
      }
    }
  }

  /** What a release, the removal of a card or the deletion of a machine leaves: no card of the
    * machine removed, no address held by a card that went, and all else as it was. */
  lemma RemovalOutcome(s: State, e: Event)
    requires Next(s, e).Some? && (e.ReleaseAddresses? || e.DeleteNic? || e.DeleteVm?)
    ensures var s' := Next(s, e).value;
      && s'.txs == s.txs && |s'.rows| == |s.rows|
      && (forall v :: v in s'.vms <==> v in s.vms && e != DeleteVm(v))
      && (forall v :: v in s'.vms ==> s'.vms[v] == s.vms[v])
      && (forall n :: n in s'.nics <==> n in s.nics && e != DeleteNic(n) && e != DeleteVm(s.nics[n]))
      && (forall n :: n in s'.nics ==> s'.nics[n] == s.nics[n])
      && (forall i :: 0 <= i < |s.rows| ==>
            s'.rows[i] == if s.rows[i].nic.Some? && Releases(s, e, s.rows[i].nic.value) then s.rows[i].(nic := None)
                          else s.rows[i])
  {
  }

  ghost function PartyOf(e: Event): Option<TxId> {
    match e
    case Begin(tx, _, _, _) => Some(tx) case CreateNic(tx, _) => Some(tx) case Find(tx) => Some(tx)
    case Claim(tx) => Some(tx) case Abort(tx) => Some(tx)
    case _ => None
  }

  /** The creation is aborted, finds no free address, or comes too late with its claim. */
  ghost predicate Fails(s: State, e: Event, tx: TxId) {
    && tx in s.txs
    && (|| e.Abort?
        || (e.Find? && s.txs[tx].phase.Seek? && NoneFreeFor(s.rows, s.txs[tx].claims, s.txs[tx].phase.pool))
        || (e.Claim? && s.txs[tx].phase.Found? && s.txs[tx].phase.row < |s.rows|
            && s.rows[s.txs[tx].phase.row].nic.Some?))
  }

  ghost predicate NoneFreeFor(rows: seq<Row>, claims: map<nat, NicId>, pool: PoolId) {
    forall i: nat :: !FreeFor(rows, claims, pool, i)
  }

  /** Before its commit a creation changes no committed row, card or machine; when it loses a
    * claim, finds no address or aborts, it is gone without a trace. */
  lemma UncommittedLeavesNothing(s: State, e: Event)
    requires Next(s, e).Some? && PartyOf(e).Some?
    ensures var s' := Next(s, e).value; var tx := PartyOf(e).value;
      && s'.rows == s.rows && s'.vms == s.vms && s'.nics == s.nics
      && s'.txs - {tx} == s.txs - {tx}
      && (tx !in s'.txs ==> s' == s.(txs := s.txs - {tx}))
      && (Fails(s, e, tx) ==> tx !in s'.txs)
  {
    var s' := Next(s, e).value;
    assert s'.txs - {PartyOf(e).value} == s.txs - {PartyOf(e).value};
  }

  lemma ClaimedCards(s: State, t: Tx)
    requires ClaimsOk(s, t)
    ensures forall i :: i in t.claims ==> t.claims[i] in t.nics
  {
    forall i | i in t.claims ensures t.claims[i] in t.nics { assert WantedBy(t, t.claims[i], s.rows[i].pool); }
  }

  lemma UniqueHolder(rows: seq<Row>, nics: map<NicId, string>, i: nat, nic: NicId)
    requires RowsOk(rows, nics) && i < |rows| && rows[i].nic == Some(nic)
    ensures forall j :: 0 <= j < |rows| && rows[j].nic == Some(nic) ==> j == i
  {
  }

  lemma CommitServes(s: State, tx: TxId, k: nat)
    requires Inv(s) && Next(s, Commit(tx)).Some? && k < |s.txs[tx].nics|
    requires |s.txs[tx].nics| == |s.txs[tx].wants| && s.txs[tx].wants[k].Some?
    ensures HasOneAddress(s, Next(s, Commit(tx)).value, s.txs[tx].nics[k], s.txs[tx].wants[k].value)
  {
    var s', t := Next(s, Commit(tx)).value, s.txs[tx];
    assert Served(s, t, k) && ClaimsOk(s, t) by { assert TxOk(s, t); }
    var i :| i in t.claims && i < |s.rows| && t.claims[i] == t.nics[k] && s.rows[i].pool == t.wants[k].value;
    CommitRows(s, tx);
    CommitRowsOk(s, tx);
    UniqueHolder(s'.rows, s'.nics, i, t.nics[k]);
  }

  lemma UnwantedUnclaimed(s: State, t: Tx, k: nat)
    requires CardsOk(s, t) && ClaimsOk(s, t) && k < |t.nics| && t.wants[k].None?
    ensures forall i :: i in t.claims ==> t.claims[i] != t.nics[k]
  {
    forall i | i in t.claims ensures t.claims[i] != t.nics[k] { assert WantedBy(t, t.claims[i], s.rows[i].pool); }
  }

  lemma CommitSkips(s: State, tx: TxId, k: nat)
    requires Inv(s) && Next(s, Commit(tx)).Some? && k < |s.txs[tx].nics|
    requires |s.txs[tx].nics| == |s.txs[tx].wants| && s.txs[tx].wants[k].None?
    ensures NoAddress(Next(s, Commit(tx)).value, s.txs[tx].nics[k])
  {
    var t := s.txs[tx];
    assert CardsOk(s, t) && ClaimsOk(s, t) by { assert TxOk(s, t); }
    CommitRows(s, tx);
    UnwantedUnclaimed(s, t, k);
    assert t.nics[k] !in s.nics;
  }

  /** What a committed creation leaves: its machine, its volumes, its cards, and for every card
    * that wanted one exactly one address, of that pool, unreserved and free until now. */
  lemma CommitOutcome(s: State, tx: TxId)
    requires Inv(s) && Next(s, Commit(tx)).Some?
    ensures var s' := Next(s, Commit(tx)).value; var t := s.txs[tx];
      && s'.vms == s.vms[t.vm := t.volumes]
      && |t.nics| == |t.wants| && Distinct(t.nics)
      && (forall k :: 0 <= k < |t.nics| ==> t.nics[k] in s'.nics && s'.nics[t.nics[k]] == t.vm)
      && (forall k :: 0 <= k < |t.nics| ==>
            if t.wants[k].Some? then HasOneAddress(s, s', t.nics[k], t.wants[k].value) else NoAddress(s', t.nics[k]))
      && (forall i :: 0 <= i < |s.rows| ==>
            s'.rows[i] == s.rows[i] || (s'.rows[i].nic.Some? && s'.rows[i].nic.value in t.nics))
  {
    var t := s.txs[tx];
    CommitRows(s, tx);
    assert TxOk(s, t);
    ClaimedCards(s, t);
    forall k | 0 <= k < |t.nics|
      ensures if t.wants[k].Some? then HasOneAddress(s, Next(s, Commit(tx)).value, t.nics[k], t.wants[k].value)
              else NoAddress(Next(s, Commit(tx)).value, t.nics[k])
    {
      if t.wants[k].Some? { CommitServes(s, tx, k); } else { CommitSkips(s, tx, k); }
    }
  }

  ghost predicate HasOneAddress(s: State, s': State, nic: NicId, pool: PoolId) {
    exists i :: 0 <= i < |s.rows| && i < |s'.rows| && s'.rows[i].nic == Some(nic) && s.rows[i].pool == pool
      && s.rows[i].nic == None && !s.rows[i].reserved
      && forall j :: 0 <= j < |s'.rows| && s'.rows[j].nic == Some(nic) ==> j == i
  }

  ghost predicate NoAddress(s: State, nic: NicId) { forall i :: 0 <= i < |s.rows| ==> s.rows[i].nic != Some(nic) }
}
