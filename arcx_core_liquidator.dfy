/** The pruning engine (`src/ARCx/CoreLiquidator.ts`): one liquidator per core that keeps only
    the borrowers whose vault holds debt, scans the logs from a cursor it advances after every
    successful cycle, and submits its liquidations concurrently. */
module PruningEngine {
  import opened Common
  import opened Parameters
  import opened Assessor
  import opened Borrowers
  import opened Registry
  import opened Cycle

  /** The gas limit of every liquidate call of this engine. */
  const GAS_LIMIT: nat := 2_000_000

  /** The two fields a cycle changes. */
  datatype EngineState = EngineState(activeBorrowers: seq<Address>, lastBlockScanned: Option<nat>)

  /** A cycle's new state, its result (the liquidatable proofs, or why it threw), and the
      liquidate calls it submitted. */
  datatype CycleResult = CycleResult(state: EngineState, outcome: Result<seq<ScoreProof>>, submitted: seq<LiquidateCall>)

  // ---------------------------------------------------------------------------------------
  // _updateActiveBorrowers

  /** `_updateActiveBorrowers` AS WRITTEN, with its reads taken in order: the list is emptied
      before any read, each account with debt is pushed when its read returns, and the first
      read that throws ends the update with whatever was pushed before it. `ok` tells whether
      every read returned. */
  datatype UpdateResult = UpdateResult(active: seq<Address>, ok: bool)

  function UpdateAsWritten(chain: ChainReads, toCheck: seq<Address>): (u: UpdateResult)
    ensures u.ok <==> forall a :: a in toCheck ==> a in chain.vaults
    ensures u.ok ==> u.active == Filter(toCheck, HasDebt(chain))
    ensures forall b :: b in u.active ==> b in toCheck && HasDebt(chain)(b)
  {
    if toCheck == [] then UpdateResult([], true)
    else if toCheck[0] !in chain.vaults then UpdateResult([], false)
    else
      assert forall a :: a in toCheck ==> a == toCheck[0] || a in toCheck[1..];
      var rest := UpdateAsWritten(chain, toCheck[1..]);
      var head := if HasDebt(chain)(toCheck[0]) then [toCheck[0]] else [];
      UpdateResult(head + rest.active, rest.ok)
  }

  /** `_updateActiveBorrowers` as evidently intended: the same accounts are read, and the list
      is replaced only when every read returned. The new list holds each tracked or newly
      found account with debt, once. */
  function UpdatedActive(chain: ChainReads, active: seq<Address>, found: seq<Address>): (r: Result<seq<Address>>)
    ensures r.Success? <==> forall a :: a in active + found ==> a in chain.vaults
    ensures r.Failure? ==> r.error == ReadFailed
    ensures r.Success? ==> NoDuplicates(r.value)
    ensures r.Success? ==> forall b :: b in r.value <==> (b in active || b in found) && HasDebt(chain)(b)
  {
    var toCheck := Unique(active + found);
    if forall a :: a in toCheck ==> a in chain.vaults then
      FilterNoDuplicates(toCheck, HasDebt(chain));
      Success(Filter(toCheck, HasDebt(chain)))
    else Failure(ReadFailed)
  }

  /** When every read returns, the update as written and the intended one agree. */
  lemma AsWrittenAgreesWhenReadsSucceed(chain: ChainReads, active: seq<Address>, found: seq<Address>)
    requires UpdatedActive(chain, active, found).Success?
    ensures UpdateAsWritten(chain, Unique(active + found)) == UpdateResult(UpdatedActive(chain, active, found).value, true)
  {
  }

  // ---------------------------------------------------------------------------------------
  // The cycle

  /** `liquidateVaults`' result: all calls are started together, so one rejection makes it
      throw only once every call has been tried. */
  function ConcurrentLiquidationResult(d: Deployments, exec: Execution, proofs: seq<ScoreProof>): (r: Result<int>)
    ensures LiquidationSetup(d, exec).Failure? ==> r == Failure(LiquidationSetup(d, exec).error)
    ensures LiquidationSetup(d, exec).Success? && (exists p :: p in proofs && p.account in exec.rejected) ==>
      r == Failure(SubmissionFailed)
    ensures LiquidationSetup(d, exec).Success? && (forall p :: p in proofs ==> p.account !in exec.rejected) ==>
      r == Settlement(exec)
  {
    match LiquidationSetup(d, exec)
    case Failure(e) => Failure(e)
    case Success(_) =>
      if exists p :: p in proofs && p.account in exec.rejected then Failure(SubmissionFailed)
      else Settlement(exec)
  }

  /** The calls `liquidateVaults` submits when it starts every proof's call at once: one for
      each proof whose call is accepted (listed in proof order; the engine's order is the order
      the calls return). */
  function ConcurrentSubmitted(d: Deployments, exec: Execution, core: Address, proofs: seq<ScoreProof>): (calls: seq<LiquidateCall>)
    ensures LiquidationSetup(d, exec).Failure? ==> calls == []
    ensures |calls| <= |proofs|
    ensures LiquidationSetup(d, exec).Success? ==> forall pr :: pr in proofs && pr.account !in exec.rejected ==>
      LiquidateCall(LiquidationSetup(d, exec).value, core, pr.account, pr, GAS_LIMIT) in calls
    ensures forall call :: call in calls ==>
      && LiquidationSetup(d, exec).Success?
      && call.proof in proofs
      && call == LiquidateCall(LiquidationSetup(d, exec).value, core, call.proof.account, call.proof, GAS_LIMIT)
      && call.account !in exec.rejected
    ensures LiquidationSetup(d, exec).Success? ==> |calls| == |Filter(proofs, NotRejected(exec))|
    ensures NoDuplicates(proofs) ==> NoDuplicates(calls)
  {
    match LiquidationSetup(d, exec)
    case Failure(_) => []
    case Success(liquidator) =>
      var kept := Filter(proofs, NotRejected(exec));
      var calls := CallsFor(liquidator, core, kept, GAS_LIMIT);
      assert NoDuplicates(proofs) ==> NoDuplicates(calls) by {
        if NoDuplicates(proofs) {
          FilterNoDuplicates(proofs, NotRejected(exec));
          forall i, j | 0 <= i < j < |calls| ensures calls[i] != calls[j] {
            assert calls[i].proof == kept[i] && calls[j].proof == kept[j];
          }
        }
      }
      forall pr | pr in kept ensures LiquidateCall(liquidator, core, pr.account, pr, GAS_LIMIT) in calls {
        var i :| 0 <= i < |kept| && kept[i] == pr;
        assert calls[i] == LiquidateCall(liquidator, core, pr.account, pr, GAS_LIMIT);
      }
      forall call | call in calls ensures call.proof in kept && call == LiquidateCall(liquidator, core, call.proof.account, call.proof, GAS_LIMIT) {
        var i :| 0 <= i < |calls| && calls[i] == call;
        assert kept[i] in kept;
      }
      calls
  }

  /** The assessment of `accounts` succeeds, and so does `liquidateVaults` when it is called,
      that is when some vault is liquidatable. */
  predicate AssessAndLiquidateSucceed(chain: ChainReads, accounts: seq<Address>, p: CoreParameters, d: Deployments, exec: Execution) {
    && LiquidatableProofs(chain, accounts, p).Success?
    && (LiquidatableProofs(chain, accounts, p).value == [] || ConcurrentLiquidationResult(d, exec, LiquidatableProofs(chain, accounts, p).value).Success?)
  }

  /** The rest of `pollVaults` after the update: assess the active borrowers, liquidate the
      liquidatable ones, and move the cursor to the block read at the start. */
  function AfterUpdate(s: EngineState, chain: ChainReads, p: CoreParameters, d: Deployments, exec: Execution, core: Address): (c: CycleResult)
    ensures c.state.activeBorrowers == s.activeBorrowers
    ensures c.outcome.Success? ==>
      c.outcome == LiquidatableProofs(chain, s.activeBorrowers, p) && c.state.lastBlockScanned == Some(chain.head)
    ensures c.outcome.Failure? ==> c.state == s
    ensures c.outcome.Success? ==> forall pr :: pr in c.outcome.value ==>
      LiquidationSetup(d, exec).Success? && LiquidateCall(LiquidationSetup(d, exec).value, core, pr.account, pr, GAS_LIMIT) in c.submitted
    ensures forall call :: call in c.submitted ==> call.account !in exec.rejected && call.core == core && call.gasLimit == GAS_LIMIT
    ensures c.outcome.Success? <==> AssessAndLiquidateSucceed(chain, s.activeBorrowers, p, d, exec)
    ensures LiquidatableProofs(chain, s.activeBorrowers, p).Failure? ==>
      c.outcome == Failure(LiquidatableProofs(chain, s.activeBorrowers, p).error) && c.submitted == []
    ensures LiquidatableProofs(chain, s.activeBorrowers, p) == Success([]) ==> c.submitted == []
    ensures LiquidatableProofs(chain, s.activeBorrowers, p).Success? && LiquidatableProofs(chain, s.activeBorrowers, p).value != [] ==>
      && c.submitted == ConcurrentSubmitted(d, exec, core, LiquidatableProofs(chain, s.activeBorrowers, p).value)
      && (c.outcome.Failure? ==> c.outcome.error == ConcurrentLiquidationResult(d, exec, LiquidatableProofs(chain, s.activeBorrowers, p).value).error)
  {
    match LiquidatableProofs(chain, s.activeBorrowers, p)
    case Failure(e) => CycleResult(s, Failure(e), [])
    case Success(proofs) =>
      if proofs == [] then CycleResult(EngineState(s.activeBorrowers, Some(chain.head)), Success(proofs), [])
      else
        var submitted := ConcurrentSubmitted(d, exec, core, proofs);
        match ConcurrentLiquidationResult(d, exec, proofs)
        case Failure(e) => CycleResult(s, Failure(e), submitted)
        case Success(_) => CycleResult(EngineState(s.activeBorrowers, Some(chain.head)), Success(proofs), submitted)
  }

  /** `pollVaults` with the intended update: read the block number; discover new borrowers and
      read the parameters; update the active list; assess, liquidate, advance the cursor. Any
      step that throws ends the cycle, and the error is caught. */
  function PollCycle(s: EngineState, chain: ChainReads, d: Deployments, exec: Execution, core: Address): (c: CycleResult)
    ensures c.state.lastBlockScanned == (if c.outcome.Success? then Some(chain.head) else s.lastBlockScanned)
    ensures NoDuplicates(s.activeBorrowers) ==> NoDuplicates(c.state.activeBorrowers)
    ensures BlockNumber in chain.failedReads ==> c == CycleResult(s, Failure(ReadFailed), [])
    ensures FetchParameters(chain).Failure? ==> c.state == s && c.outcome.Failure? && c.submitted == []
    ensures c.outcome.Success? ==>
      && FetchParameters(chain).Success?
      && c.outcome == LiquidatableProofs(chain, c.state.activeBorrowers, FetchParameters(chain).value)
    ensures c.outcome.Success? ==> forall pr :: pr in c.outcome.value ==>
      LiquidationSetup(d, exec).Success? && LiquidateCall(LiquidationSetup(d, exec).value, core, pr.account, pr, GAS_LIMIT) in c.submitted
    ensures forall call :: call in c.submitted ==> call.account !in exec.rejected && call.core == core && call.gasLimit == GAS_LIMIT
    ensures BlockNumber !in chain.failedReads && FetchNewBorrowers(chain, s.lastBlockScanned, s.activeBorrowers).Failure? ==>
      c == CycleResult(s, Failure(FetchNewBorrowers(chain, s.lastBlockScanned, s.activeBorrowers).error), [])
    ensures BlockNumber !in chain.failedReads && FetchNewBorrowers(chain, s.lastBlockScanned, s.activeBorrowers).Success? && FetchParameters(chain).Success? ==>
      var u := UpdatedActive(chain, s.activeBorrowers, FetchNewBorrowers(chain, s.lastBlockScanned, s.activeBorrowers).value);
      && (u.Failure? ==> c == CycleResult(s, Failure(ReadFailed), []))
      && (u.Success? ==> c.state.activeBorrowers == u.value)
      && (c.outcome.Success? <==> u.Success? && AssessAndLiquidateSucceed(chain, u.value, FetchParameters(chain).value, d, exec))
    ensures c.outcome.Success? ==>
      && BlockNumber !in chain.failedReads
      && FetchNewBorrowers(chain, s.lastBlockScanned, s.activeBorrowers).Success?
      && UpdatedActive(chain, s.activeBorrowers, FetchNewBorrowers(chain, s.lastBlockScanned, s.activeBorrowers).value).Success?
  {
    if BlockNumber in chain.failedReads then CycleResult(s, Failure(ReadFailed), [])
    else match FetchNewBorrowers(chain, s.lastBlockScanned, s.activeBorrowers)
      case Failure(e) => CycleResult(s, Failure(e), [])
      case Success(found) =>
        match FetchParameters(chain)
        case Failure(e) => CycleResult(s, Failure(e), [])
        case Success(p) =>
          match UpdatedActive(chain, s.activeBorrowers, found)
          case Failure(e) => CycleResult(s, Failure(e), [])
          case Success(active) => AfterUpdate(EngineState(active, s.lastBlockScanned), chain, p, d, exec, core)
  }

  /** `pollVaults` AS WRITTEN: as `PollCycle`, with the update that empties the list first. */
  function PollCycleAsWritten(s: EngineState, chain: ChainReads, d: Deployments, exec: Execution, core: Address): (c: CycleResult)
    ensures c.state.lastBlockScanned == (if c.outcome.Success? then Some(chain.head) else s.lastBlockScanned)
    ensures BlockNumber in chain.failedReads ==> c == CycleResult(s, Failure(ReadFailed), [])
    ensures BlockNumber !in chain.failedReads && FetchNewBorrowers(chain, s.lastBlockScanned, s.activeBorrowers).Failure? ==>
      c == CycleResult(s, Failure(FetchNewBorrowers(chain, s.lastBlockScanned, s.activeBorrowers).error), [])
    ensures FetchParameters(chain).Failure? ==> c.state == s && c.outcome.Failure? && c.submitted == []
    ensures BlockNumber !in chain.failedReads && FetchNewBorrowers(chain, s.lastBlockScanned, s.activeBorrowers).Success? && FetchParameters(chain).Success? ==>
      var u := UpdateAsWritten(chain, Unique(s.activeBorrowers + FetchNewBorrowers(chain, s.lastBlockScanned, s.activeBorrowers).value));
      && c.state.activeBorrowers == u.active
      && (!u.ok ==> c.outcome == Failure(ReadFailed) && c.submitted == [])
      && (c.outcome.Success? <==> u.ok && AssessAndLiquidateSucceed(chain, u.active, FetchParameters(chain).value, d, exec))
  {
    if BlockNumber in chain.failedReads then CycleResult(s, Failure(ReadFailed), [])
    else match FetchNewBorrowers(chain, s.lastBlockScanned, s.activeBorrowers)
      case Failure(e) => CycleResult(s, Failure(e), [])
      case Success(found) =>
        match FetchParameters(chain)
        case Failure(e) => CycleResult(s, Failure(e), [])
        case Success(p) =>
          var u := UpdateAsWritten(chain, Unique(s.activeBorrowers + found));
          if !u.ok then CycleResult(EngineState(u.active, s.lastBlockScanned), Failure(ReadFailed), [])
          else AfterUpdate(EngineState(u.active, s.lastBlockScanned), chain, p, d, exec, core)
  }

  /** With the intended update, a tracked borrower leaves the active list only in a cycle whose
      read of its vault returned and showed no debt. */
  lemma IndebtedBorrowerStaysActive(s: EngineState, chain: ChainReads, d: Deployments, exec: Execution, core: Address, b: Address)
    requires b in s.activeBorrowers
    requires b !in chain.vaults || chain.vaults[b].normalizedBorrowedAmount != 0
    ensures b in PollCycle(s, chain, d, exec, core).state.activeBorrowers
  {
  }

  /** As written, a tracked borrower whose vault read throws is dropped, and the cycle fails
      without moving the cursor. */
  lemma AsWrittenDropsUnreadBorrower(s: EngineState, chain: ChainReads, d: Deployments, exec: Execution, core: Address, b: Address)
    requires b in s.activeBorrowers
    requires BlockNumber !in chain.failedReads
    requires FetchNewBorrowers(chain, s.lastBlockScanned, s.activeBorrowers).Success?
    requires FetchParameters(chain).Success?
    requires b !in chain.vaults
    ensures PollCycleAsWritten(s, chain, d, exec, core).outcome == Failure(ReadFailed)
    ensures PollCycleAsWritten(s, chain, d, exec, core).state.lastBlockScanned == s.lastBlockScanned
    ensures b !in PollCycleAsWritten(s, chain, d, exec, core).state.activeBorrowers
  {
    var found := FetchNewBorrowers(chain, s.lastBlockScanned, s.activeBorrowers).value;
    assert b in Unique(s.activeBorrowers + found);
  }

  /** An untracked borrower none of whose logs lies at or after the cursor is not tracked after
      a cycle, whatever the cycle reads. */
  lemma UntrackedWithoutNewLogStaysUntracked(s: EngineState, chain: ChainReads, d: Deployments, exec: Execution, core: Address, b: Address)
    requires b !in s.activeBorrowers && s.lastBlockScanned.Some?
    requires forall bl :: bl in chain.history && BorrowerOf(bl.log) == Success(b) ==> bl.block < s.lastBlockScanned.value
    ensures b !in PollCycleAsWritten(s, chain, d, exec, core).state.activeBorrowers
    ensures b !in PollCycle(s, chain, d, exec, core).state.activeBorrowers
  {
    var found := FetchNewBorrowers(chain, s.lastBlockScanned, s.activeBorrowers);
    if BlockNumber !in chain.failedReads && found.Success? && FetchParameters(chain).Success? {
      NoLogNoDiscovery(chain, s.lastBlockScanned.value, s.activeBorrowers, b);
      var p := FetchParameters(chain).value;
      var toCheck := Unique(s.activeBorrowers + found.value);
      assert b !in toCheck;
      var u := UpdateAsWritten(chain, toCheck);
      assert b !in u.active;
      assert PollCycleAsWritten(s, chain, d, exec, core).state.activeBorrowers == u.active by {
        if u.ok {
          assert PollCycleAsWritten(s, chain, d, exec, core) == AfterUpdate(EngineState(u.active, s.lastBlockScanned), chain, p, d, exec, core);
        }
      }
      var v := UpdatedActive(chain, s.activeBorrowers, found.value);
      if v.Success? {
        assert PollCycle(s, chain, d, exec, core) == AfterUpdate(EngineState(v.value, s.lastBlockScanned), chain, p, d, exec, core);
      }
    }
  }

  /** As written, a tracked borrower whose vault read throws once is no longer watched after
      the next cycle either, whatever that cycle reads, when it has no log at or after the
      cursor: the failed cycle did not move the cursor, but the borrower's log lies before it. */
  lemma AsWrittenLosesIndebtedBorrower(
    s: EngineState, chain1: ChainReads, exec1: Execution, chain2: ChainReads, exec2: Execution, d: Deployments, core: Address, b: Address)
    requires b in s.activeBorrowers && s.lastBlockScanned.Some?
    requires BlockNumber !in chain1.failedReads
    requires FetchNewBorrowers(chain1, s.lastBlockScanned, s.activeBorrowers).Success?
    requires FetchParameters(chain1).Success?
    requires b !in chain1.vaults
    requires forall bl :: bl in chain2.history && BorrowerOf(bl.log) == Success(b) ==> bl.block < s.lastBlockScanned.value
    ensures b !in PollCycleAsWritten(s, chain1, d, exec1, core).state.activeBorrowers
    ensures b !in PollCycleAsWritten(PollCycleAsWritten(s, chain1, d, exec1, core).state, chain2, d, exec2, core).state.activeBorrowers
  {
    AsWrittenDropsUnreadBorrower(s, chain1, d, exec1, core, b);
    UntrackedWithoutNewLogStaysUntracked(PollCycleAsWritten(s, chain1, d, exec1, core).state, chain2, d, exec2, core, b);
  }

  /** The same two cycles with the intended update keep the borrower watched. */
  lemma IntendedKeepsIndebtedBorrower(
    s: EngineState, chain1: ChainReads, exec1: Execution, chain2: ChainReads, exec2: Execution, d: Deployments, core: Address, b: Address)
    requires b in s.activeBorrowers
    requires b !in chain1.vaults
    requires b !in chain2.vaults || chain2.vaults[b].normalizedBorrowedAmount != 0
    ensures b in PollCycle(s, chain1, d, exec1, core).state.activeBorrowers
    ensures b in PollCycle(PollCycle(s, chain1, d, exec1, core).state, chain2, d, exec2, core).state.activeBorrowers
  {
    IndebtedBorrowerStaysActive(s, chain1, d, exec1, core, b);
    IndebtedBorrowerStaysActive(PollCycle(s, chain1, d, exec1, core).state, chain2, d, exec2, core, b);
  }

  /** A borrower whose debt was repaid is pruned by the next successful update. */
  lemma RepaidBorrowerIsPruned(s: EngineState, chain: ChainReads, d: Deployments, exec: Execution, core: Address, b: Address)
    requires b in chain.vaults && chain.vaults[b].normalizedBorrowedAmount == 0
    requires BlockNumber !in chain.failedReads
    requires FetchNewBorrowers(chain, s.lastBlockScanned, s.activeBorrowers).Success?
    requires FetchParameters(chain).Success?
    requires UpdatedActive(chain, s.activeBorrowers, FetchNewBorrowers(chain, s.lastBlockScanned, s.activeBorrowers).value).Success?
    ensures b !in PollCycle(s, chain, d, exec, core).state.activeBorrowers
  {
  }

  /** One more proof adds its call exactly when its account is not rejected. */
  lemma SubmittedStep(liquidator: Address, core: Address, proofs: seq<ScoreProof>, i: nat, exec: Execution)
    requires i < |proofs|
    ensures proofs[i].account in exec.rejected ==>
      CallsFor(liquidator, core, Filter(proofs[..i + 1], NotRejected(exec)), GAS_LIMIT) ==
      CallsFor(liquidator, core, Filter(proofs[..i], NotRejected(exec)), GAS_LIMIT)
    ensures proofs[i].account !in exec.rejected ==>
      CallsFor(liquidator, core, Filter(proofs[..i + 1], NotRejected(exec)), GAS_LIMIT) ==
      CallsFor(liquidator, core, Filter(proofs[..i], NotRejected(exec)), GAS_LIMIT) +
      [LiquidateCall(liquidator, core, proofs[i].account, proofs[i], GAS_LIMIT)]
  {
    assert proofs[..i + 1] == proofs[..i] + [proofs[i]];
    FilterAppend(proofs[..i], [proofs[i]], NotRejected(exec));
  }

  class CoreLiquidator {
    const coreAddress: Address
    const contractCreationTx: string
    var activeBorrowers: seq<Address>
    var lastBlockScanned: Option<nat>

    function State(): EngineState
      reads this
    {
      EngineState(activeBorrowers, lastBlockScanned)
    }

    /** Every active borrower is listed once. */
    ghost predicate Valid()
      reads this
    {
      NoDuplicates(activeBorrowers)
    }

    constructor(coreAddress: Address, contractCreationTx: string)
      ensures this.coreAddress == coreAddress && this.contractCreationTx == contractCreationTx
      ensures activeBorrowers == [] && lastBlockScanned == Some(0)
      ensures Valid()
    {
      this.coreAddress := coreAddress;
      this.contractCreationTx := contractCreationTx;
      activeBorrowers := [];
      lastBlockScanned := Some(0);
    }

    /** `init`: `_initializeLastblockScanned` (a cursor still at block 0 moves to the block of
        the creation receipt), then `_checkBalance`, whose low-balance alert is the result. */
    method Init(receipt: Result<Option<nat>>, balance: Option<nat>) returns (r: Result<bool>)
      modifies this`lastBlockScanned
      ensures old(lastBlockScanned) == Some(0) && receipt.Failure? ==>
        lastBlockScanned == old(lastBlockScanned) && r == Failure(receipt.error)
      ensures old(lastBlockScanned) == Some(0) && receipt.Success? ==> lastBlockScanned == receipt.value
      ensures old(lastBlockScanned) != Some(0) ==> lastBlockScanned == old(lastBlockScanned)
      ensures (old(lastBlockScanned) != Some(0) || receipt.Success?) ==>
        r == (if balance.Some? then Success(IsLowBalance(balance.value)) else Failure(ReadFailed))
    {
      if lastBlockScanned == Some(0) {
        if receipt.Failure? {
          return Failure(receipt.error);
        }
        lastBlockScanned := receipt.value;
      }
      if balance.None? {
        return Failure(ReadFailed);
      }
      return Success(IsLowBalance(balance.value));
    }

    /** `_updateActiveBorrowers` with the intended behaviour: every account of
        `[...new Set(active.concat(found))]` is read, and the list is replaced by those with
        debt only when every read returned. */
    method UpdateActiveBorrowers(chain: ChainReads, found: seq<Address>) returns (r: Result<seq<Address>>)
      modifies this`activeBorrowers
      ensures r == UpdatedActive(chain, old(activeBorrowers), found)
      ensures activeBorrowers == (if r.Success? then r.value else old(activeBorrowers))
    {
      var toCheck := Unique(activeBorrowers + found);
      r := ReadDebtors(chain, toCheck);
      assert r == UpdatedActive(chain, activeBorrowers, found);
      if r.Success? {
        activeBorrowers := r.value;
      }
    }

    /** The reads of `_updateActiveBorrowers`, in order: each account with debt is kept, and the
        first read that throws ends them. */
    method ReadDebtors(chain: ChainReads, toCheck: seq<Address>) returns (r: Result<seq<Address>>)
      ensures r.Success? <==> forall a :: a in toCheck ==> a in chain.vaults
      ensures r.Success? ==> r.value == Filter(toCheck, HasDebt(chain))
      ensures r.Failure? ==> r.error == ReadFailed
    {
      var kept: seq<Address> := [];
      for i := 0 to |toCheck|
        invariant forall j :: 0 <= j < i ==> toCheck[j] in chain.vaults
        invariant kept == Filter(toCheck[..i], HasDebt(chain))
      {
        var account := toCheck[i];
        if account !in chain.vaults {
          assert toCheck[i] in toCheck;
          return Failure(ReadFailed);
        }
        DebtFilterStep(chain, toCheck, i);
        if chain.vaults[account].normalizedBorrowedAmount != 0 {
          kept := kept + [account];
        }
      }
      assert toCheck[..|toCheck|] == toCheck;
      return Success(kept);
    }

    /** `getLiquidatableVaults`: discovery and the parameter reads together, then the update,
        then the assessment of every active borrower. */
    method GetLiquidatableVaults(chain: ChainReads) returns (r: Result<seq<ScoreProof>>)
      modifies this`activeBorrowers
      ensures FetchNewBorrowers(chain, lastBlockScanned, old(activeBorrowers)).Failure? ==>
        activeBorrowers == old(activeBorrowers) && r == Failure(FetchNewBorrowers(chain, lastBlockScanned, old(activeBorrowers)).error)
      ensures FetchNewBorrowers(chain, lastBlockScanned, old(activeBorrowers)).Success? && FetchParameters(chain).Failure? ==>
        activeBorrowers == old(activeBorrowers) && r == Failure(FetchParameters(chain).error)
      ensures FetchNewBorrowers(chain, lastBlockScanned, old(activeBorrowers)).Success? && FetchParameters(chain).Success? ==>
        var u := UpdatedActive(chain, old(activeBorrowers), FetchNewBorrowers(chain, lastBlockScanned, old(activeBorrowers)).value);
        && activeBorrowers == (if u.Success? then u.value else old(activeBorrowers))
        && r == (if u.Success? then LiquidatableProofs(chain, u.value, FetchParameters(chain).value) else Failure(u.error))
    {
      var found := FetchNewBorrowers(chain, lastBlockScanned, activeBorrowers);
      if found.Failure? {
        return Failure(found.error);
      }
      var parameters := FetchParameters(chain);
      if parameters.Failure? {
        return Failure(parameters.error);
      }
      var updated := UpdateActiveBorrowers(chain, found.value);
      if updated.Failure? {
        return Failure(updated.error);
      }
      r := LiquidatableProofs(chain, activeBorrowers, parameters.value);
    }

    /** `liquidateVaults`: after the flash-liquidator lookup and the balance read, every proof's
        call is started at once; the accepted ones are submitted (in the order they return,
        which the model does not fix), and a rejected one makes the method throw. */
    method LiquidateVaults(d: Deployments, exec: Execution, proofs: seq<ScoreProof>) returns (outcome: LiquidationOutcome)
      ensures outcome.result == ConcurrentLiquidationResult(d, exec, proofs)
      ensures multiset(outcome.submitted) == multiset(ConcurrentSubmitted(d, exec, coreAddress, proofs))
    {
      var setup := LiquidationSetup(d, exec);
      if setup.Failure? {
        return LiquidationOutcome([], Failure(setup.error));
      }
      var submitted, anyRejected := SubmitCalls(setup.value, exec, proofs);
      if anyRejected {
        return LiquidationOutcome(submitted, Failure(SubmissionFailed));
      }
      return LiquidationOutcome(submitted, Settlement(exec));
    }

    /** The calls `liquidateVaults` starts, one per proof: the accepted ones are submitted, and
        whether any was rejected is reported. */
    method SubmitCalls(liquidator: Address, exec: Execution, proofs: seq<ScoreProof>)
      returns (submitted: seq<LiquidateCall>, anyRejected: bool)
      ensures submitted == CallsFor(liquidator, coreAddress, Filter(proofs, NotRejected(exec)), GAS_LIMIT)
      ensures anyRejected <==> exists p :: p in proofs && p.account in exec.rejected
    {
      submitted := [];
      anyRejected := false;
      for i := 0 to |proofs|
        invariant submitted == CallsFor(liquidator, coreAddress, Filter(proofs[..i], NotRejected(exec)), GAS_LIMIT)
        invariant anyRejected <==> FirstRejected(exec, proofs) < i
      {
        SubmittedStep(liquidator, coreAddress, proofs, i, exec);
        if proofs[i].account in exec.rejected {
          anyRejected := true;
        } else {
          submitted := submitted + [LiquidateCall(liquidator, coreAddress, proofs[i].account, proofs[i], GAS_LIMIT)];
        }
      }
      assert proofs[..|proofs|] == proofs;
      if anyRejected {
        assert proofs[FirstRejected(exec, proofs)] in proofs;
      }
    }

    /** `pollVaults`: one cycle, with the error of a failed step caught. The calls are those of
        the cycle, in the order they returned. */
    method PollVaults(chain: ChainReads, d: Deployments, exec: Execution) returns (r: Result<seq<ScoreProof>>, submitted: seq<LiquidateCall>)
      requires Valid()
      modifies this`activeBorrowers, this`lastBlockScanned
      ensures Valid()
      ensures State() == PollCycle(old(State()), chain, d, exec, coreAddress).state
      ensures r == PollCycle(old(State()), chain, d, exec, coreAddress).outcome
      ensures multiset(submitted) == multiset(PollCycle(old(State()), chain, d, exec, coreAddress).submitted)
    {
      submitted := [];
      if BlockNumber in chain.failedReads {
        return Failure(ReadFailed), submitted;
      }
      var currentBlock := chain.head;
      var proofs := GetLiquidatableVaults(chain);
      if proofs.Failure? {
        return proofs, submitted;
      }
      if |proofs.value| > 0 {
        var outcome := LiquidateVaults(d, exec, proofs.value);
        submitted := outcome.submitted;
        if outcome.result.Failure? {
          return Failure(outcome.result.error), submitted;
        }
      }
      lastBlockScanned := Some(currentBlock);
      return proofs, submitted;
    }
  }
}
