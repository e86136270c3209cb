/**
  * What holds over whole runs of concurrent creations: when a found address is lost, that a
  * creation which never commits leaves no trace, and when creations block each other.
  */
module AddressRuns {
  import opened Basics
  import opened AddressClaims

  // ---------------------------------------------------------------------------
  // Lost claims

  /** The statement belongs to this creation. */
  ghost predicate Own(e: Event, tx: TxId) { PartyOf(e) == Some(tx) || e == Commit(tx) }

  ghost predicate NoneOwn(events: seq<Event>, tx: TxId) { forall e :: e in events ==> !Own(e, tx) }

  lemma RunSnoc(s: State, init: seq<Event>, last: Event)
    requires Run(s, init + [last]).Some?
    ensures Run(s, init).Some? && Next(Run(s, init).value, last).Some?
    ensures Run(s, init + [last]) == Next(Run(s, init).value, last)
    decreases |init|
  {
    if init == [] {
      assert [] + [last] == [last] && [last][1..] == [];
    } else {
      assert (init + [last])[1..] == init[1..] + [last];
      RunSnoc(Next(s, init[0]).value, init[1..], last);
    }
  }

  lemma OthersKeepTx(s: State, e: Event, tx: TxId)
    requires Next(s, e).Some? && tx in s.txs && !Own(e, tx)
    ensures tx in Next(s, e).value.txs && Next(s, e).value.txs[tx] == s.txs[tx]
  {
  }

  lemma {:induction false} RunKeepsTx(s: State, events: seq<Event>, tx: TxId)
    requires Run(s, events).Some? && tx in s.txs && NoneOwn(events, tx)
    ensures tx in Run(s, events).value.txs && Run(s, events).value.txs[tx] == s.txs[tx]
    decreases |events|
  {
    if events != [] {
      OthersKeepTx(s, events[0], tx);
      RunKeepsTx(Next(s, events[0]).value, events[1..], tx);
    }
  }

  /** The statement commits a claim of the card on the row. */
  ghost predicate Takes(s: State, e: Event, i: nat, nic: NicId) {
    e.Commit? && e.tx in s.txs && i in s.txs[e.tx].claims && s.txs[e.tx].claims[i] == nic
  }

  /** One step and one row: a held address stays until its release, a free one is taken by the
    * commit of a claim on it. */
  lemma RowStep(s: State, e: Event, i: nat, nic: NicId)
    requires Inv(s) && Next(s, e).Some? && i < |s.rows|
    ensures i < |Next(s, e).value.rows|
    ensures Next(s, e).value.rows[i].nic == Some(nic) <==>
      (s.rows[i].nic == Some(nic) && !Releases(s, e, nic)) || Takes(s, e, i, nic)
  {
    StepSameAddresses(s, e);
    if s.rows[i].nic.Some? {
      HeldUntilReleased(s, e, i, s.rows[i].nic.value);
    }
    if e.Commit? {
      CommitRows(s, e.tx);
      assert TxOk(s, s.txs[e.tx]);
    }
  }

  /** The k-th statement takes the row for the card, and no later one releases the card. */
  ghost predicate TakenFor(s: State, events: seq<Event>, i: nat, nic: NicId, k: int) {
    && 0 <= k < |events| && Run(s, events[..k]).Some? && Takes(Run(s, events[..k]).value, events[k], i, nic)
    && forall l :: k < l < |events| ==> !ReleasedWithin(s, events, nic, l)
  }

  lemma TakenSnoc(s: State, init: seq<Event>, last: Event, i: nat, nic: NicId, k: nat)
    requires Run(s, init).Some? && k < |init|
    ensures TakenFor(s, init + [last], i, nic, k) <==>
      TakenFor(s, init, i, nic, k) && !Releases(Run(s, init).value, last, nic)
  {
    var events := init + [last];
    assert events[..|init|] == init;
    assert forall l :: 0 <= l < |init| ==> events[..l] == init[..l];
    assert ReleasedWithin(s, events, nic, |init|) <==> Releases(Run(s, init).value, last, nic);
    assert forall l :: 0 <= l < |init| ==> (ReleasedWithin(s, events, nic, l) <==> ReleasedWithin(s, init, nic, l));
  }

  lemma TakenLast(s: State, init: seq<Event>, last: Event, i: nat, nic: NicId)
    requires Run(s, init).Some?
    ensures TakenFor(s, init + [last], i, nic, |init|) <==> Takes(Run(s, init).value, last, i, nic)
  {
    assert (init + [last])[..|init|] == init;
  }

  ghost predicate TakenWithin(s: State, events: seq<Event>, i: nat, nic: NicId) {
    exists k :: TakenFor(s, events, i, nic, k)
  }

  lemma TakenWithinSnoc(s: State, init: seq<Event>, last: Event, i: nat, nic: NicId)
    requires Run(s, init).Some?
    ensures TakenWithin(s, init + [last], i, nic) <==>
      (TakenWithin(s, init, i, nic) && !Releases(Run(s, init).value, last, nic))
      || Takes(Run(s, init).value, last, i, nic)
  {
    TakenLast(s, init, last, i, nic);
    forall k: nat | k < |init|
      ensures TakenFor(s, init + [last], i, nic, k) <==>
        TakenFor(s, init, i, nic, k) && !Releases(Run(s, init).value, last, nic)
    {
      TakenSnoc(s, init, last, i, nic, k);
    }
  }

  /** A row that is free at first is held by a card exactly if some commit in between took it for
    * this card and the card was not released since. */
  lemma {:induction false} HeldIffTaken(s: State, events: seq<Event>, i: nat, nic: NicId)
    requires Inv(s) && Run(s, events).Some? && i < |s.rows| && s.rows[i].nic == None
    ensures i < |Run(s, events).value.rows|
    ensures Run(s, events).value.rows[i].nic == Some(nic) <==> TakenWithin(s, events, i, nic)
    decreases |events|
  {
    if events != [] {
      var init, last := events[..|events| - 1], events[|events| - 1];
      assert events == init + [last];
      RunSnoc(s, init, last);
      HeldIffTaken(s, init, i, nic);
      RunKeepsInv(s, init);
      RowStep(Run(s, init).value, last, i, nic);
      TakenWithinSnoc(s, init, last, i, nic);
    }
  }

  lemma FoundFree(s: State, tx: TxId)
    requires Next(s, Find(tx)).Some? && tx in Next(s, Find(tx)).value.txs
    ensures var found := Next(s, Find(tx)).value;
      && found.rows == s.rows && found.txs[tx].phase.Found? && found.txs[tx].phase.row < |s.rows|
      && s.rows[found.txs[tx].phase.row].nic == None
  {
  }

  lemma LostIfHeld(s: State, tx: TxId)
    requires Next(s, Claim(tx)).Some?
    ensures tx !in Next(s, Claim(tx)).value.txs <==> s.rows[s.txs[tx].phase.row].nic.Some?
  {
  }

  lemma HeldIffTakenByAny(s: State, events: seq<Event>, i: nat)
    requires Inv(s) && Run(s, events).Some? && i < |s.rows| && s.rows[i].nic == None
    ensures i < |Run(s, events).value.rows|
    ensures Run(s, events).value.rows[i].nic.Some? <==> exists nic: NicId :: TakenWithin(s, events, i, nic)
  {
    RunSameAddresses(s, events);
    var row := Run(s, events).value.rows[i];
    if row.nic.Some? {
      HeldIffTaken(s, events, i, row.nic.value);
    }
    if nic: NicId :| TakenWithin(s, events, i, nic) {
      HeldIffTaken(s, events, i, nic);
    }
  }

  /** A creation that has found an address loses its claim exactly when, between its find and its
    * claim, another creation committed this address and its card was not released again. */
  lemma ClaimLostIff(s: State, tx: TxId, events: seq<Event>)
    requires Inv(s) && Next(s, Find(tx)).Some? && tx in Next(s, Find(tx)).value.txs && NoneOwn(events, tx)
    requires var found := Next(s, Find(tx)).value;
      Run(found, events).Some? && Next(Run(found, events).value, Claim(tx)).Some?
    ensures var found := Next(s, Find(tx)).value;
      tx !in Next(Run(found, events).value, Claim(tx)).value.txs <==>
        exists nic: NicId :: TakenWithin(found, events, found.txs[tx].phase.row, nic)
  {
    var found := Next(s, Find(tx)).value;
    StepKeepsInv(s, Find(tx));
    FoundFree(s, tx);
    RunKeepsTx(found, events, tx);
    HeldIffTakenByAny(found, events, found.txs[tx].phase.row);
    LostIfHeld(Run(found, events).value, tx);
  }

  // ---------------------------------------------------------------------------
  // Creations that never commit

  /** The run without the statements of one creation. */
  ghost function Erased(events: seq<Event>, tx: TxId): seq<Event> {
    if events == [] then []
    else (if PartyOf(events[0]) == Some(tx) then [] else [events[0]]) + Erased(events[1..], tx)
  }

  /** The same tables and the same other creations; identifiers may have been used up. */
  ghost predicate SameBut(s: State, s': State, tx: TxId) {
    && s'.rows == s.rows && s'.vms == s.vms && s'.nics == s.nics
    && s'.txs == s.txs - {tx} && s'.used <= s.used
  }

  lemma OwnStepInvisible(s: State, s': State, e: Event, tx: TxId)
    requires SameBut(s, s', tx) && Next(s, e).Some? && PartyOf(e) == Some(tx)
    ensures SameBut(Next(s, e).value, s', tx)
  {
    UncommittedLeavesNothing(s, e);
    assert Next(s, e).value.txs - {tx} == s.txs - {tx};
  }

  lemma OtherBegin(s: State, s': State, e: Event, tx: TxId)
    requires SameBut(s, s', tx) && Next(s, e).Some? && e.Begin? && e.tx != tx
    ensures Next(s', e).Some? && SameBut(Next(s, e).value, Next(s', e).value, tx)
  {
  }

  lemma OtherCardStep(s: State, s': State, e: Event, tx: TxId)
    requires SameBut(s, s', tx) && Next(s, e).Some? && (e.CreateNic? || e.Find?) && e.tx != tx
    ensures Next(s', e).Some? && SameBut(Next(s, e).value, Next(s', e).value, tx)
  {
  }

  lemma OtherClaimOrAbort(s: State, s': State, e: Event, tx: TxId)
    requires SameBut(s, s', tx) && Next(s, e).Some? && (e.Claim? || e.Abort?) && e.tx != tx
    ensures Next(s', e).Some? && SameBut(Next(s, e).value, Next(s', e).value, tx)
  {
  }

  lemma OtherCommit(s: State, s': State, other: TxId, tx: TxId)
    requires SameBut(s, s', tx) && Next(s, Commit(other)).Some? && other != tx
    ensures Next(s', Commit(other)).Some?
    ensures SameBut(Next(s, Commit(other)).value, Next(s', Commit(other)).value, tx)
  {
  }

  lemma OtherStepSame(s: State, s': State, e: Event, tx: TxId)
    requires SameBut(s, s', tx) && Next(s, e).Some? && !Own(e, tx)
    ensures Next(s', e).Some? && SameBut(Next(s, e).value, Next(s', e).value, tx)
  {
    if e.Begin? {
      OtherBegin(s, s', e, tx);
    } else if e.CreateNic? || e.Find? {
      OtherCardStep(s, s', e, tx);
    } else if e.Claim? || e.Abort? {
      OtherClaimOrAbort(s, s', e, tx);
    } else if e.Commit? {
      OtherCommit(s, s', e.tx, tx);
    }
  }

  lemma {:induction false} ErasedSame(s: State, s': State, events: seq<Event>, tx: TxId)
    requires SameBut(s, s', tx) && Run(s, events).Some? && Commit(tx) !in events
    ensures Run(s', Erased(events, tx)).Some? && SameBut(Run(s, events).value, Run(s', Erased(events, tx)).value, tx)
    decreases |events|
  {
    if events != [] {
      var e, rest := events[0], events[1..];
      if PartyOf(e) == Some(tx) {
        OwnStepInvisible(s, s', e, tx);
        ErasedSame(Next(s, e).value, s', rest, tx);
        assert Erased(events, tx) == Erased(rest, tx);
      } else {
        OtherStepSame(s, s', e, tx);
        ErasedSame(Next(s, e).value, Next(s', e).value, rest, tx);
        assert ([e] + Erased(rest, tx))[1..] == Erased(rest, tx);
      }
    }
  }

  /** A creation that never commits leaves no trace in any interleaving: without its statements
    * the others run to the same addresses, machines and cards. */
  lemma UncommittedInvisible(s: State, events: seq<Event>, tx: TxId)
    requires tx !in s.txs && Run(s, events).Some? && Commit(tx) !in events
    ensures Run(s, Erased(events, tx)).Some?
    ensures var with, without := Run(s, events).value, Run(s, Erased(events, tx)).value;
      && without.rows == with.rows && without.vms == with.vms && without.nics == with.nics
      && without.txs == with.txs - {tx}
  {
    assert s.txs - {tx} == s.txs;
    ErasedSame(s, s, events, tx);
  }

  // ---------------------------------------------------------------------------
  // Creations that block each other

  /** The creation can go on, other than by giving up. */
  ghost predicate CanStep(s: State, tx: TxId) {
    exists e :: Own(e, tx) && !e.Abort? && Next(s, e).Some?
  }

  /** The creation waits for a row that another one has claimed. */
  ghost predicate Waits(s: State, tx: TxId) {
    tx in s.txs && s.txs[tx].phase.Found? && LockedByOther(s, tx, s.txs[tx].phase.row)
  }

  lemma {:induction false} FreshCard(used: set<NicId>) returns (nic: NicId)
    ensures forall n :: n in used ==> n < nic
    decreases |used|
  {
    nic := 0;
    if n :| n in used {
      var rest := used - {n};
      nic := FreshCard(rest);
      nic := if nic > n then nic else n + 1;
      assert forall x :: x in used ==> x == n || x in rest;
    }
  }

  lemma NextOf(s: State, tx: TxId) returns (e: Event)
    requires Inv(s) && tx in s.txs && !Waits(s, tx)
    ensures Own(e, tx) && !e.Abort? && Next(s, e).Some?
  {
    assert TxOk(s, s.txs[tx]);
    var t := s.txs[tx];
    if t.phase.Seek? {
      e := Find(tx);
    } else if t.phase.Found? {
      e := Claim(tx);
    } else if |t.nics| < |t.wants| {
      var nic := FreshCard(s.used);
      e := CreateNic(tx, nic);
    } else {
      e := Commit(tx);
    }
  }

  /** An open creation can go on exactly unless it waits for another's claim. */
  lemma CanStepIff(s: State, tx: TxId)
    requires Inv(s) && tx in s.txs
    ensures CanStep(s, tx) <==> !Waits(s, tx)
  {
    if !Waits(s, tx) {
      var e := NextOf(s, tx);
    }
  }

  /** The cards that want an address want it from pools of strictly rising rank. */
  ghost predicate Ascends(wants: seq<Option<PoolId>>, rank: PoolId -> nat) {
    forall j, k :: 0 <= j < k < |wants| && wants[j].Some? && wants[k].Some? ==>
      rank(wants[j].value) < rank(wants[k].value)
  }

  ghost predicate AllAscend(s: State, rank: PoolId -> nat) {
    forall t :: t in s.txs ==> Ascends(s.txs[t].wants, rank)
  }

  /** Whoever blocks a creation has claimed from the pool the other seeks in, so, with rising
    * pools, waits itself only for a higher pool. */
  lemma BlockerIsAhead(s: State, tx: TxId, rank: PoolId -> nat) returns (blocker: TxId)
    requires Inv(s) && Waits(s, tx) && AllAscend(s, rank)
    ensures blocker in s.txs
    ensures Waits(s, blocker) ==> rank(s.txs[blocker].phase.pool) > rank(s.txs[tx].phase.pool)
  {
    var row := s.txs[tx].phase.row;
    blocker :| blocker in s.txs && blocker != tx && row in s.txs[blocker].claims;
    assert TxOk(s, s.txs[tx]) && TxOk(s, s.txs[blocker]);
    if Waits(s, blocker) {
      RankRises(s, s.txs[blocker], row, rank);
    }
  }

  lemma RankRises(s: State, u: Tx, row: nat, rank: PoolId -> nat)
    requires TxOk(s, u) && u.phase.Found? && row in u.claims && Ascends(u.wants, rank)
    ensures row < |s.rows| && rank(s.rows[row].pool) < rank(u.phase.pool)
  {
    var k := ClaimedBefore(s, u, row);
  }

  /** A claim is for an earlier card than the one an address is sought for. */
  lemma ClaimedBefore(s: State, u: Tx, row: nat) returns (k: nat)
    requires TxOk(s, u) && u.phase.Found? && row in u.claims
    ensures row < |s.rows| && k < |u.nics| - 1 < |u.wants|
    ensures u.wants[k] == Some(s.rows[row].pool) && u.wants[|u.nics| - 1] == Some(u.phase.pool)
  {
    assert WantedBy(u, u.claims[row], s.rows[row].pool);
    k :| 0 <= k < |u.nics| && k < |u.wants| && u.nics[k] == u.claims[row] && u.wants[k] == Some(s.rows[row].pool);
    assert k != |u.nics| - 1;
  }

  /** The creations that wait for a row of a pool of higher rank. */
  ghost function WaitingAbove(s: State, rank: PoolId -> nat, level: nat): set<TxId> {
    set t | t in s.txs && Waits(s, t) && rank(s.txs[t].phase.pool) > level
  }

  lemma {:induction false} SomeDoesNotWait(s: State, tx: TxId, rank: PoolId -> nat) returns (free: TxId)
    requires Inv(s) && Waits(s, tx) && AllAscend(s, rank)
    ensures free in s.txs && !Waits(s, free)
    decreases WaitingAbove(s, rank, rank(s.txs[tx].phase.pool))
  {
    var blocker := BlockerIsAhead(s, tx, rank);
    if Waits(s, blocker) {
      assert blocker in WaitingAbove(s, rank, rank(s.txs[tx].phase.pool));
      free := SomeDoesNotWait(s, blocker, rank);
    } else {
      free := blocker;
    }
  }

  /** If the pools can be ranked so that every open creation asks for them in rising order, one
    * address from each, some open creation can always go on. */
  lemma AscendingNeverBlocks(s: State, rank: PoolId -> nat) returns (free: TxId)
    requires Inv(s) && s.txs != map[] && AllAscend(s, rank)
    ensures free in s.txs && CanStep(s, free)
  {
    free :| free in s.txs;
    if Waits(s, free) {
      free := SomeDoesNotWait(s, free, rank);
    }
    CanStepIff(s, free);
  }

  // ---------------------------------------------------------------------------
  // Which requests may block each other

  /** Each of the two creations waits for a row that the other one has claimed. */
  ghost predicate MutualWait(s: State, a: TxId, b: TxId) {
    && a != b && a in s.txs && b in s.txs && s.txs[a].phase.Found? && s.txs[b].phase.Found?
    && s.txs[a].phase.row in s.txs[b].claims && s.txs[b].phase.row in s.txs[a].claims
  }

  /** Two creations that ask for these pools. */
  ghost predicate Ask(s: State, a: TxId, b: TxId, u: seq<Option<PoolId>>, v: seq<Option<PoolId>>) {
    a in s.txs && b in s.txs && s.txs[a].wants == u && s.txs[b].wants == v
  }

  /** The run starts without open creations and ends with two such ones waiting for each other. */
  ghost predicate BlocksIn(s: State, events: seq<Event>, u: seq<Option<PoolId>>, v: seq<Option<PoolId>>) {
    && Inv(s) && s.txs == map[] && Run(s, events).Some?
    && exists a, b :: Ask(Run(s, events).value, a, b, u, v) && MutualWait(Run(s, events).value, a, b)
  }

  ghost predicate MayBlock(u: seq<Option<PoolId>>, v: seq<Option<PoolId>>) {
    exists s, events :: BlocksIn(s, events, u, v)
  }

  /** Of two pools the one list asks for the second after the first, the other one for the first
    * after the second; they may be one pool asked for twice. */
  ghost predicate Crossed(u: seq<Option<PoolId>>, v: seq<Option<PoolId>>) {
    exists i, j, k, l :: CrossedAt(u, v, i, j, k, l)
  }

  ghost predicate CrossedAt(u: seq<Option<PoolId>>, v: seq<Option<PoolId>>, i: int, j: int, k: int, l: int) {
    0 <= i < j < |u| && 0 <= k < l < |v| && u[i].Some? && u[j].Some? && u[i] == v[l] && u[j] == v[k]
  }

  /** Two creations may come to wait for each other exactly when their requests are crossed. */
  lemma MayBlockIff(u: seq<Option<PoolId>>, v: seq<Option<PoolId>>)
    ensures MayBlock(u, v) <==> Crossed(u, v)
  {
    if MayBlock(u, v) {
      var s, events :| BlocksIn(s, events, u, v);
      RunKeepsInv(s, events);
      var s' := Run(s, events).value;
      var a, b :| Ask(s', a, b, u, v) && MutualWait(s', a, b);
      MutualIsCrossed(s', a, b);
    }
    if Crossed(u, v) {
      var i, j, k, l :| CrossedAt(u, v, i, j, k, l);
      var s, events := BlockingRun(u, v, i, j, k, l);
      assert BlocksIn(s, events, u, v);
    }
  }

  lemma MutualIsCrossed(s: State, a: TxId, b: TxId)
    requires Inv(s) && MutualWait(s, a, b)
    ensures Crossed(s.txs[a].wants, s.txs[b].wants)
  {
    var x, y := s.txs[a], s.txs[b];
    assert TxOk(s, x) && TxOk(s, y);
    var i := ClaimedBefore(s, x, y.phase.row);
    var k := ClaimedBefore(s, y, x.phase.row);
    assert CrossedAt(x.wants, y.wants, i, |x.nics| - 1, k, |y.nics| - 1);
  }

  // A run for crossed requests: one row for every card before the crossing, those of the second
  // creation first, each held by a card that gives it up when its turn comes.

  /** The row for a wanted card, held by the card with the number of the row until it is opened. */
  function Slot(want: Option<PoolId>, r: nat, open: bool): Row {
    Row(if want.Some? then want.value else 0, false, if open && want.Some? then None else Some(r))
  }

  /** A creation that holds the rows from a first one on for its first wants. */
  ghost predicate HoldsFrom(t: Tx, wants: seq<Option<PoolId>>, first: nat, count: nat) {
    && t.wants == wants && count <= |wants| && |t.nics| == count && t.phase.Ready?
    && forall r :: r in t.claims <==> first <= r < first + count && wants[r - first].Some?
  }

  /** The slots for a list of wants, the first of them open. */
  ghost predicate Slots(rows: seq<Row>, wants: seq<Option<PoolId>>, first: nat, count: nat, open: nat) {
    && first + count <= |rows| && count <= |wants|
    && forall c :: first <= c < first + count ==> rows[c] == Slot(wants[c - first], c, c < first + open)
  }

  /** The first creation has got p of its j addresses, the second one q of its l. */
  ghost predicate Stage(
    s: State, u: seq<Option<PoolId>>, v: seq<Option<PoolId>>, j: nat, l: nat, p: nat, q: nat)
  {
    && |s.rows| == l + j && Slots(s.rows, v, 0, l, q) && Slots(s.rows, u, l, j, p)
    && (forall r: nat :: r < l + j ==> r in s.nics)
    && s.txs.Keys == {0, 1} && HoldsFrom(s.txs[0], u, l, p) && HoldsFrom(s.txs[1], v, 0, q)
  }

  lemma FirstFreeIs(rows: seq<Row>, claims: map<nat, NicId>, pool: PoolId, i: nat)
    requires FreeFor(rows, claims, pool, i) && forall r: nat :: r < i ==> !FreeFor(rows, claims, pool, r)
    ensures FirstFree(rows, claims, pool, 0) == Some(i)
  {
  }

  lemma FindAndClaim(s: State, tx: TxId, row: nat)
    requires tx in s.txs && s.txs[tx].phase.Seek? && s.txs[tx].nics != []
    requires FirstFree(s.rows, s.txs[tx].claims, s.txs[tx].phase.pool, 0) == Some(row)
    requires forall t :: t in s.txs && t != tx ==> row !in s.txs[t].claims
    ensures var t := s.txs[tx];
      Run(s, [Find(tx), Claim(tx)])
        == Some(SetTx(s, tx, t.(claims := t.claims[row := t.nics[|t.nics| - 1]], phase := Ready)))
  {
    var t := s.txs[tx];
    var s1 := SetTx(s, tx, t.(phase := Found(t.phase.pool, row)));
    var s2 := SetTx(s, tx, t.(claims := t.claims[row := t.nics[|t.nics| - 1]], phase := Ready));
    StepThen(s, Find(tx), [Claim(tx)]);
    StepThen(s1, Claim(tx), []);
    assert [Find(tx), Claim(tx)] == [Find(tx)] + [Claim(tx)] && [Claim(tx)] == [Claim(tx)] + [];
    assert s1.txs[tx := s2.txs[tx]] == s2.txs;
    assert !LockedByOther(s1, tx, row);
  }

  /** A row's holder gives it up. */
  lemma OpenRow(s: State, row: nat)
    requires row < |s.rows| && s.rows[row].nic == Some(row) && row in s.nics
    requires forall r :: 0 <= r < |s.rows| && s.rows[r].nic == Some(row) ==> r == row
    ensures Next(s, ReleaseAddresses(row)) == Some(s.(rows := s.rows[row := s.rows[row].(nic := None)]))
  {
    assert Freed(s.rows, {row}) == s.rows[row := s.rows[row].(nic := None)];
  }

  /** One creation has one more card and these claims more; nothing else but rows has changed. */
  ghost predicate Advanced(s: State, s': State, tx: TxId, rows: set<nat>) {
    && tx in s.txs && s'.nics == s.nics && s'.txs.Keys == s.txs.Keys
    && (forall x :: x in s.txs && x != tx ==> s'.txs[x] == s.txs[x])
    && s'.txs[tx].wants == s.txs[tx].wants && |s'.txs[tx].nics| == |s.txs[tx].nics| + 1
    && s'.txs[tx].claims.Keys == s.txs[tx].claims.Keys + rows
  }

  ghost predicate CardNext(s: State, tx: TxId) {
    tx in s.txs && s.txs[tx].phase.Ready? && |s.txs[tx].nics| < |s.txs[tx].wants|
  }

  lemma NextCard(s: State, tx: TxId) returns (e: Event)
    requires CardNext(s, tx)
    ensures Next(s, e).Some? && Advanced(s, Next(s, e).value, tx, {})
    ensures Next(s, e).value.rows == s.rows && Next(s, e).value.txs[tx].claims == s.txs[tx].claims
    ensures var want := s.txs[tx].wants[|s.txs[tx].nics|];
      Next(s, e).value.txs[tx].phase == if want.Some? then Seek(want.value) else Ready
  {
    var nic := FreshCard(s.used);
    e := CreateNic(tx, nic);
  }

  lemma RunTwo(s: State, e: Event, more: seq<Event>) returns (events: seq<Event>)
    requires Next(s, e).Some? && Run(Next(s, e).value, more).Some?
    ensures Run(s, events) == Run(Next(s, e).value, more)
  {
    events := [e] + more;
    StepThen(s, e, more);
  }

  /** A slot is opened for a wanted card. */
  function Opened(rows: seq<Row>, want: Option<PoolId>, row: nat): seq<Row>
    requires row < |rows|
  {
    if want.Some? then rows[row := Slot(want, row, true)] else rows
  }

  /** The card that a creation wants next has this row for its slot, which nobody has claimed. */
  ghost predicate SlotNext(s: State, tx: TxId, row: nat) {
    && CardNext(s, tx) && row < |s.rows| && row in s.nics
    && s.rows[row] == Slot(s.txs[tx].wants[|s.txs[tx].nics|], row, false)
    && (forall r :: 0 <= r < |s.rows| && s.rows[r].nic == Some(row) ==> r == row)
    && (forall r: nat :: r < row && r < |s.rows| ==> s.rows[r].nic.Some? || r in s.txs[tx].claims)
    && forall t :: t in s.txs ==> row !in s.txs[t].claims
  }

  /** The next card of a creation gets the address of its slot, if it wants one. */
  lemma GetSlot(s: State, tx: TxId, row: nat) returns (events: seq<Event>)
    requires SlotNext(s, tx, row)
    ensures var want := s.txs[tx].wants[|s.txs[tx].nics|];
      && Run(s, events).Some?
      && Run(s, events).value.rows == Opened(s.rows, want, row)
      && Run(s, events).value.txs.Keys == s.txs.Keys && Run(s, events).value.txs[tx].phase.Ready?
      && Advanced(s, Run(s, events).value, tx, if want.Some? then {row} else {})
  {
    var want := s.txs[tx].wants[|s.txs[tx].nics|];
    if want.None? {
      var e := NextCard(s, tx);
      events := RunTwo(s, e, []);
    } else {
      OpenRow(s, row);
      var s1 := Next(s, ReleaseAddresses(row)).value;
      var more := GetOpenRow(s1, tx, row);
      events := RunTwo(s, ReleaseAddresses(row), more);
    }
  }

  lemma GetOpenRow(s: State, tx: TxId, row: nat) returns (events: seq<Event>)
    requires CardNext(s, tx) && row < |s.rows| && s.rows[row] == Slot(s.txs[tx].wants[|s.txs[tx].nics|], row, true)
    requires s.txs[tx].wants[|s.txs[tx].nics|].Some?
    requires forall r: nat :: r < row && r < |s.rows| ==> s.rows[r].nic.Some? || r in s.txs[tx].claims
    requires forall t :: t in s.txs ==> row !in s.txs[t].claims
    ensures Run(s, events).Some? && Advanced(s, Run(s, events).value, tx, {row})
    ensures Run(s, events).value.rows == s.rows && Run(s, events).value.txs[tx].phase.Ready?
  {
    var e := NextCard(s, tx);
    var s1 := Next(s, e).value;
    FirstFreeIs(s1.rows, s1.txs[tx].claims, s1.txs[tx].phase.pool, row);
    FindAndClaim(s1, tx, row);
    events := RunTwo(s, e, [Find(tx), Claim(tx)]);
  }

  lemma SlotsOpen(rows: seq<Row>, wants: seq<Option<PoolId>>, first: nat, count: nat, open: nat)
    requires Slots(rows, wants, first, count, open) && open < count
    ensures Slots(Opened(rows, wants[open], first + open), wants, first, count, open + 1)
  {
  }

  lemma SlotsKept(rows: seq<Row>, want: Option<PoolId>, row: nat,
                  wants: seq<Option<PoolId>>, first: nat, count: nat, open: nat)
    requires Slots(rows, wants, first, count, open) && row < |rows| && !(first <= row < first + count)
    ensures Slots(Opened(rows, want, row), wants, first, count, open)
  {
  }

  lemma HoldsOneMore(s: State, s': State, tx: TxId, wants: seq<Option<PoolId>>, first: nat, count: nat)
    requires tx in s.txs && HoldsFrom(s.txs[tx], wants, first, count) && count < |wants|
    requires Advanced(s, s', tx, if wants[count].Some? then {first + count} else {}) && s'.txs[tx].phase.Ready?
    ensures HoldsFrom(s'.txs[tx], wants, first, count + 1)
  {
    var t, t' := s.txs[tx], s'.txs[tx];
    forall r: nat ensures r in t'.claims <==> first <= r < first + count + 1 && wants[r - first].Some? {
      assert r in t'.claims <==> r in t'.claims.Keys;
      assert r in t.claims <==> r in t.claims.Keys;
    }
  }

  /** The first creation takes its next card. */
  lemma FirstTakes(s: State, u: seq<Option<PoolId>>, v: seq<Option<PoolId>>, j: nat, l: nat, p: nat)
      returns (events: seq<Event>)
    requires Stage(s, u, v, j, l, p, 0) && p < j
    ensures Run(s, events).Some? && Stage(Run(s, events).value, u, v, j, l, p + 1, 0)
  {
    FirstSlotNext(s, u, v, j, l, p);
    events := GetSlot(s, 0, l + p);
    SlotsOpen(s.rows, u, l, j, p);
    SlotsKept(s.rows, u[p], l + p, v, 0, l, 0);
    HoldsOneMore(s, Run(s, events).value, 0, u, l, p);
  }

  lemma FirstSlotNext(s: State, u: seq<Option<PoolId>>, v: seq<Option<PoolId>>, j: nat, l: nat, p: nat)
    requires Stage(s, u, v, j, l, p, 0) && p < j
    ensures SlotNext(s, 0, l + p)
  {
  }

  /** The second creation takes its next card, after the first one has taken all before the crossing. */
  lemma SecondTakes(s: State, u: seq<Option<PoolId>>, v: seq<Option<PoolId>>, j: nat, l: nat, q: nat)
      returns (events: seq<Event>)
    requires Stage(s, u, v, j, l, j, q) && q < l
    ensures Run(s, events).Some? && Stage(Run(s, events).value, u, v, j, l, j, q + 1)
  {
    SecondSlotNext(s, u, v, j, l, q);
    events := GetSlot(s, 1, q);
    SlotsOpen(s.rows, v, 0, l, q);
    SlotsKept(s.rows, v[q], q, u, l, j, j);
    HoldsOneMore(s, Run(s, events).value, 1, v, 0, q);
  }

  lemma SecondSlotNext(s: State, u: seq<Option<PoolId>>, v: seq<Option<PoolId>>, j: nat, l: nat, q: nat)
    requires Stage(s, u, v, j, l, j, q) && q < l
    ensures SlotNext(s, 1, q)
  {
  }

  lemma {:induction false} TakeAll(s: State, u: seq<Option<PoolId>>, v: seq<Option<PoolId>>,
                                   j: nat, l: nat, p: nat, q: nat)
      returns (events: seq<Event>)
    requires Stage(s, u, v, j, l, p, q) && p <= j && q <= l && (q > 0 ==> p == j)
    ensures Run(s, events).Some? && Stage(Run(s, events).value, u, v, j, l, j, l)
    decreases j - p + l - q
  {
    if p == j && q == l {
      events := [];
    } else {
      var more;
      if p < j {
        events := FirstTakes(s, u, v, j, l, p);
        more := TakeAll(Run(s, events).value, u, v, j, l, p + 1, q);
      } else {
        events := SecondTakes(s, u, v, j, l, q);
        more := TakeAll(Run(s, events).value, u, v, j, l, p, q + 1);
      }
      RunSteps(s, events, more);
      events := events + more;
    }
  }

  /** The next card of a creation, for which it has found the first free address. */
  lemma SeekNext(s: State, tx: TxId, free: nat) returns (events: seq<Event>)
    requires CardNext(s, tx) && s.txs[tx].wants[|s.txs[tx].nics|].Some?
    requires FreeFor(s.rows, s.txs[tx].claims, s.txs[tx].wants[|s.txs[tx].nics|].value, free)
    ensures Run(s, events).Some? && Advanced(s, Run(s, events).value, tx, {})
    ensures var s' := Run(s, events).value; var t := s'.txs[tx];
      && s'.rows == s.rows && t.claims == s.txs[tx].claims && t.phase.Found? && t.phase.row <= free
      && FreeFor(s.rows, t.claims, t.phase.pool, t.phase.row)
  {
    var e := NextCard(s, tx);
    var s1 := Next(s, e).value;
    var row := FirstFree(s1.rows, s1.txs[tx].claims, s1.txs[tx].phase.pool, 0);
    assert row.Some? && row.value <= free;
    var s2 := SetTx(s1, tx, s1.txs[tx].(phase := Found(s1.txs[tx].phase.pool, row.value)));
    assert Next(s1, Find(tx)) == Some(s2);
    var more := RunTwo(s1, Find(tx), []);
    events := RunTwo(s, e, more);
  }

  /** From here the two seek each other's rows. */
  lemma BothSeek(s: State, u: seq<Option<PoolId>>, v: seq<Option<PoolId>>, i: nat, j: nat, k: nat, l: nat)
      returns (events: seq<Event>)
    requires CrossedAt(u, v, i, j, k, l) && Stage(s, u, v, j, l, j, l)
    ensures Run(s, events).Some?
    ensures Ask(Run(s, events).value, 0, 1, u, v) && MutualWait(Run(s, events).value, 0, 1)
  {
    assert s.rows[k] == Slot(v[k], k, true) && s.rows[l + i] == Slot(u[i], l + i, true);
    events := SeekNext(s, 0, k);
    var s1 := Run(s, events).value;
    var more := SeekNext(s1, 1, l + i);
    var s2 := Run(s1, more).value;
    RunSteps(s, events, more);
    events := events + more;
    assert s2.txs[0] == s1.txs[0];
    SecondFindsFirst(s, u, v, j, l, s2.txs[1].phase.row);
  }

  /** The rows open to the second creation are those that the first one has claimed. */
  lemma SecondFindsFirst(s: State, u: seq<Option<PoolId>>, v: seq<Option<PoolId>>, j: nat, l: nat, row: nat)
    requires Stage(s, u, v, j, l, j, l)
    requires row < l + j && s.rows[row].nic == None && row !in s.txs[1].claims
    ensures row in s.txs[0].claims
  {
  }

  function FirstCards(n: nat): (nics: map<NicId, string>)
    ensures forall c: nat :: c in nics <==> c < n
  {
    if n == 0 then map[] else FirstCards(n - 1)[n - 1 := ""]
  }

  /** Every row is held by the card with its number. */
  function AllHeld(u: seq<Option<PoolId>>, v: seq<Option<PoolId>>, j: nat, l: nat): State
    requires j <= |u| && l <= |v|
  {
    var rows := seq(l + j, r requires 0 <= r < l + j => Slot(if r < l then v[r] else u[r - l], r, false));
    State(rows, map[], FirstCards(l + j), map[], FirstCards(l + j).Keys)
  }

  lemma AllHeldInv(u: seq<Option<PoolId>>, v: seq<Option<PoolId>>, j: nat, l: nat)
    requires j <= |u| && l <= |v|
    ensures Inv(AllHeld(u, v, j, l))
  {
    var s := AllHeld(u, v, j, l);
    forall i: nat | i < l + j ensures s.rows[i].nic == Some(i) && i in s.nics && !s.rows[i].reserved {
      assert s.rows[i] == Slot(if i < l then v[i] else u[i - l], i, false);
    }
  }

  lemma Start(u: seq<Option<PoolId>>, v: seq<Option<PoolId>>, j: nat, l: nat) returns (events: seq<Event>)
    requires j <= |u| && l <= |v|
    ensures Run(AllHeld(u, v, j, l), events).Some?
    ensures Stage(Run(AllHeld(u, v, j, l), events).value, u, v, j, l, 0, 0)
  {
    var s := AllHeld(u, v, j, l);
    var s1 := SetTx(s, 0, Tx("a", [], u, [], map[], Ready));
    var s2 := SetTx(s1, 1, Tx("b", [], v, [], map[], Ready));
    assert s1.txs[0].vm == "a";
    assert Next(s1, Begin(1, "b", [], v)) == Some(s2);
    var more := RunTwo(s1, Begin(1, "b", [], v), []);
    events := RunTwo(s, Begin(0, "a", [], u), more);
  }

  lemma BlockingRun(u: seq<Option<PoolId>>, v: seq<Option<PoolId>>, i: nat, j: nat, k: nat, l: nat)
      returns (s: State, events: seq<Event>)
    requires CrossedAt(u, v, i, j, k, l)
    ensures BlocksIn(s, events, u, v)
  {
    s := AllHeld(u, v, j, l);
    AllHeldInv(u, v, j, l);
    events := Start(u, v, j, l);
    var s1 := Run(s, events).value;
    var takes := TakeAll(s1, u, v, j, l, 0, 0);
    var s2 := Run(s1, takes).value;
    var seek := BothSeek(s2, u, v, i, j, k, l);
    RunSteps(s, events, takes);
    RunSteps(s, events + takes, seek);
    events := events + takes + seek;
  }
}
