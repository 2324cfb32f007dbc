/** The append-only engine (`src/coreLiquidator.ts`): one liquidator per core that only ever
    adds to its list of known borrowers, re-assesses all of them every cycle, submits the
    liquidations one after the other, and guards its polling loop with a lock flag. */
module AppendOnlyEngine {
  import opened Common
  import opened Assessor
  import opened Borrowers
  import opened Registry
  import opened Cycle

  /** The gas limit of every liquidate call of this engine. */
  const GAS_LIMIT: nat := 1_000_000

  /** What a completed cycle logs: the liquidatable proofs, the gain when some were liquidated,
      and the number of known and of indebted known borrowers. */
  datatype CycleReport = CycleReport(liquidatable: seq<ScoreProof>, gain: Option<int>, knownCount: nat, activeCount: nat)

  /** How the `try` block of `_pollVaults` ended, the liquidate calls it submitted, and the
      borrowers it appended to the known list. */
  datatype CycleRun = CycleRun(report: Result<CycleReport>, submitted: seq<LiquidateCall>, added: seq<Address>)

  /** One turn of the polling loop: skipped while locked; `Escaped` when the balance check threw
      outside the `try`, which ends the loop; otherwise the low-balance alert and the run of
      the `try` block (a failure there is caught and logged). */
  datatype PollStatus = Skipped | Escaped(error: Error) | Polled(lowBalance: bool, run: CycleRun)

  /** The borrowers a discovery adds to `known`; nothing when discovery throws. */
  function Discovered(chain: ChainReads, cursor: Option<nat>, known: seq<Address>): (found: seq<Address>)
    ensures forall b :: b in found ==> b !in known
    ensures NoDuplicates(known) ==> NoDuplicates(known + found)
    ensures found == (if FetchNewBorrowers(chain, cursor, known).Success? then FetchNewBorrowers(chain, cursor, known).value else [])
  {
    match FetchNewBorrowers(chain, cursor, known)
    case Failure(_) => []
    case Success(bs) =>
      var logs := GetLogs(chain, cursor).value;
      assert NewBorrowers(logs, known) == Success(bs);
      if NoDuplicates(known) then AppendNewBorrowersKeepsDistinct(logs, known); bs else bs
  }

  /** The `try` block of the engine for the core `core` with its cursor at `cursor`, as a
      function of the turn's reads and of the known list it starts from. */
  function CycleOf(d: Deployments, core: Address, cursor: Option<nat>): (Round, seq<Address>) -> CycleRun {
    (round: Round, known: seq<Address>) => CycleRunOf(round.chain, d, round.exec, core, cursor, known)
  }

  /** A cycle never appends a borrower that is already known, nor one twice. */
  lemma CycleOfKeepsDistinct(d: Deployments, core: Address, cursor: Option<nat>)
    ensures forall round, k :: NoDuplicates(k) ==> NoDuplicates(k + CycleOf(d, core, cursor)(round, k).added)
  {
    forall round: Round, k: seq<Address> | NoDuplicates(k)
      ensures NoDuplicates(k + CycleOf(d, core, cursor)(round, k).added)
    {
      assert CycleOf(d, core, cursor)(round, k).added == Discovered(round.chain, cursor, k);
    }
  }

  /** What a turn of the polling loop reports over the known list `known`, when `cycle` is the
      engine's `try` block: nothing while the lock is held; the loop ends when the balance check
      throws; otherwise the cycle runs. */
  function TurnStatus(locked: bool, round: Round, cycle: (Round, seq<Address>) -> CycleRun, known: seq<Address>): PollStatus {
    if locked then Skipped
    else if NativeBalance in round.chain.failedReads then Escaped(ReadFailed)
    else Polled(IsLowBalance(round.chain.nativeBalance), cycle(round, known))
  }

  /** The statuses of the turns `_pollVaults` takes over `rounds`, and the known list and the
      lock they leave. */
  datatype PollRun = PollRun(statuses: seq<PollStatus>, known: seq<Address>, locked: bool)

  /** The turns of `_pollVaults` from the lock `locked` and the known list `known`: each turn
      runs over the list the turns before it left, and the loop ends, still locked, after the
      turn whose balance check throws. */
  function PollTurns(locked: bool, rounds: seq<Round>, cycle: (Round, seq<Address>) -> CycleRun, known: seq<Address>): (r: PollRun)
    ensures |r.statuses| <= |rounds|
    decreases |rounds|
  {
    if rounds == [] then PollRun([], known, locked)
    else
      var status := TurnStatus(locked, rounds[0], cycle, known);
      if status.Escaped? then PollRun([status], known, true)
      else
        var rest := PollTurns(locked, rounds[1..], cycle, known + (if status.Polled? then status.run.added else []));
        PollRun([status] + rest.statuses, rest.known, rest.locked)
  }

  /** Only the last turn of a run can throw, and a run that stops early stops on a throw. */
  lemma {:induction false} PollTurnsStopOnThrow(locked: bool, rounds: seq<Round>, cycle: (Round, seq<Address>) -> CycleRun, known: seq<Address>)
    ensures var r := PollTurns(locked, rounds, cycle, known);
      && (forall i :: 0 <= i < |r.statuses| - 1 ==> !r.statuses[i].Escaped?)
      && (|r.statuses| < |rounds| ==> |r.statuses| > 0 && r.statuses[|r.statuses| - 1].Escaped?)
    decreases |rounds|
  {
    if rounds != [] {
      var status := TurnStatus(locked, rounds[0], cycle, known);
      if !status.Escaped? {
        var next := known + (if status.Polled? then status.run.added else []);
        PollTurnsStopOnThrow(locked, rounds[1..], cycle, next);
        var rest := PollTurns(locked, rounds[1..], cycle, next).statuses;
        var all := PollTurns(locked, rounds, cycle, known).statuses;
        assert all == [status] + rest;
        assert forall i :: 1 <= i < |all| ==> all[i] == rest[i - 1];
      }
    }
  }

  /** A run leaves the lock held exactly when it was held from the start or its last turn
      threw. */
  lemma {:induction false} PollTurnsLock(locked: bool, rounds: seq<Round>, cycle: (Round, seq<Address>) -> CycleRun, known: seq<Address>)
    ensures var r := PollTurns(locked, rounds, cycle, known);
      r.locked <==> locked || (|r.statuses| > 0 && r.statuses[|r.statuses| - 1].Escaped?)
    decreases |rounds|
  {
    if rounds != [] {
      var status := TurnStatus(locked, rounds[0], cycle, known);
      if !status.Escaped? {
        var next := known + (if status.Polled? then status.run.added else []);
        PollTurnsLock(locked, rounds[1..], cycle, next);
        var rest := PollTurns(locked, rounds[1..], cycle, next).statuses;
        var all := PollTurns(locked, rounds, cycle, known).statuses;
        assert all == [status] + rest;
        assert rest != [] ==> all[|all| - 1] == rest[|rest| - 1];
      }
    }
  }

  /** While the lock is held every turn is skipped, and neither the known list nor the lock
      changes. */
  lemma {:induction false} PollTurnsWhileLocked(rounds: seq<Round>, cycle: (Round, seq<Address>) -> CycleRun, known: seq<Address>)
    ensures PollTurns(true, rounds, cycle, known) == PollRun(seq(|rounds|, _ => Skipped), known, true)
    decreases |rounds|
  {
    if rounds != [] {
      PollTurnsWhileLocked(rounds[1..], cycle, known + []);
      assert known + [] == known;
      assert seq(|rounds|, _ => Skipped) == [Skipped] + seq(|rounds| - 1, _ => Skipped);
    }
  }

  /** The turns only append to the known list, and a list without duplicates stays so. */
  lemma {:induction false} PollTurnsKnown(locked: bool, rounds: seq<Round>, cycle: (Round, seq<Address>) -> CycleRun, known: seq<Address>)
    requires forall round, k :: NoDuplicates(k) ==> NoDuplicates(k + cycle(round, k).added)
    ensures known <= PollTurns(locked, rounds, cycle, known).known
    ensures NoDuplicates(known) ==> NoDuplicates(PollTurns(locked, rounds, cycle, known).known)
    decreases |rounds|
  {
    if rounds != [] {
      var status := TurnStatus(locked, rounds[0], cycle, known);
      if !status.Escaped? {
        var next := known + (if status.Polled? then status.run.added else []);
        assert NoDuplicates(known) ==> NoDuplicates(next);
        PollTurnsKnown(locked, rounds[1..], cycle, next);
      }
    }
  }

  /** One more turn of the loop: the run over `rounds[i..]` is the turn over `rounds[i]`
      followed, unless its balance check threw, by the run over `rounds[i + 1..]`. */
  lemma PollTurnsStep(locked: bool, rounds: seq<Round>, i: nat, cycle: (Round, seq<Address>) -> CycleRun,
                      before: seq<Address>, status: PollStatus, after: seq<Address>, done: seq<PollStatus>, all: PollRun)
    requires i < |rounds|
    requires status == TurnStatus(locked, Round(rounds[i].chain, rounds[i].exec), cycle, before)
    requires after == before + (if status.Polled? then status.run.added else [])
    requires all.statuses == done + PollTurns(locked, rounds[i..], cycle, before).statuses
    requires all.known == PollTurns(locked, rounds[i..], cycle, before).known
    requires all.locked == PollTurns(locked, rounds[i..], cycle, before).locked
    ensures status.Escaped? ==> all == PollRun(done + [status], before, true)
    ensures !status.Escaped? ==>
      && all.statuses == (done + [status]) + PollTurns(locked, rounds[i + 1..], cycle, after).statuses
      && all.known == PollTurns(locked, rounds[i + 1..], cycle, after).known
      && all.locked == PollTurns(locked, rounds[i + 1..], cycle, after).locked
  {
    assert Round(rounds[i].chain, rounds[i].exec) == rounds[i..][0];
    assert rounds[i..][1..] == rounds[i + 1..];
    var rest := PollTurns(locked, rounds[i + 1..], cycle, after);
    AppendAssociative(done, [status], rest.statuses);
  }

  /** `liquidateVaults` with the proofs submitted one after the other: after the set-up, the
      calls of the longest prefix of proofs that are accepted go out; a rejection ends the
      method, and otherwise the settlement is its result. */
  function SequentialLiquidation(d: Deployments, exec: Execution, core: Address, proofs: seq<ScoreProof>): (o: LiquidationOutcome)
    ensures LiquidationSetup(d, exec).Failure? ==> o == LiquidationOutcome([], Failure(LiquidationSetup(d, exec).error))
    ensures LiquidationSetup(d, exec).Success? ==>
      && |o.submitted| <= |proofs|
      && o.submitted == CallsFor(LiquidationSetup(d, exec).value, core, proofs[..|o.submitted|], GAS_LIMIT)
      && (forall i :: 0 <= i < |o.submitted| ==> proofs[i].account !in exec.rejected)
      && (|o.submitted| < |proofs| ==> proofs[|o.submitted|].account in exec.rejected && o.result == Failure(SubmissionFailed))
      && (|o.submitted| == |proofs| ==> o.result == Settlement(exec))
  {
    match LiquidationSetup(d, exec)
    case Failure(e) => LiquidationOutcome([], Failure(e))
    case Success(liquidator) =>
      var k := FirstRejected(exec, proofs);
      LiquidationOutcome(CallsFor(liquidator, core, proofs[..k], GAS_LIMIT),
        if k < |proofs| then Failure(SubmissionFailed) else Settlement(exec))
  }

  /** The `try` block of `_pollVaults` over the known list `known` and the cursor `cursor`:
      discovery, the parameter read and the assessment of every known borrower; then, when some
      vault is liquidatable, `liquidateVaults`; then the count of indebted known borrowers. */
  function CycleRunOf(chain: ChainReads, d: Deployments, exec: Execution, core: Address, cursor: Option<nat>, known: seq<Address>): (c: CycleRun)
    ensures FetchNewBorrowers(chain, cursor, known).Failure? ==>
      c == CycleRun(Failure(FetchNewBorrowers(chain, cursor, known).error), [], [])
    ensures FetchNewBorrowers(chain, cursor, known).Success? && FetchParameters(chain).Failure? ==>
      c.report == Failure(FetchParameters(chain).error) && c.submitted == []
    ensures FetchNewBorrowers(chain, cursor, known).Success? && FetchParameters(chain).Success? ==>
      var after := known + Discovered(chain, cursor, known);
      var proofs := LiquidatableProofs(chain, after, FetchParameters(chain).value);
      && (proofs.Failure? ==> c.report == Failure(proofs.error) && c.submitted == [])
      && (proofs == Success([]) ==>
            c.report == Success(CycleReport([], None, |after|, |Filter(after, HasDebt(chain))|)) && c.submitted == [])
      && (proofs.Success? && proofs.value != [] ==>
            && c.submitted == SequentialLiquidation(d, exec, core, proofs.value).submitted
            && (c.report.Failure? <==> SequentialLiquidation(d, exec, core, proofs.value).result.Failure?))
      && (c.report.Success? ==>
            && proofs == Success(c.report.value.liquidatable)
            && c.report.value.knownCount == |after|
            && c.report.value.activeCount == |Filter(after, HasDebt(chain))|)
    ensures c.report.Success? ==>
      && FetchNewBorrowers(chain, cursor, known).Success?
      && FetchParameters(chain).Success?
      && (c.report.value.gain.None? <==> c.report.value.liquidatable == [])
      && (c.report.value.gain.None? ==> c.submitted == [])
      && (c.report.value.gain.Some? ==>
            && LiquidationSetup(d, exec).Success?
            && c.submitted == CallsFor(LiquidationSetup(d, exec).value, core, c.report.value.liquidatable, GAS_LIMIT)
            && Settlement(exec) == Success(c.report.value.gain.value))
      && c.report.value.activeCount <= c.report.value.knownCount
    ensures c.added == Discovered(chain, cursor, known)
    ensures forall call :: call in c.submitted ==>
      call.account !in exec.rejected && call.core == core && call.gasLimit == GAS_LIMIT
  {
    match FetchNewBorrowers(chain, cursor, known)
    case Failure(e) => CycleRun(Failure(e), [], [])
    case Success(_) =>
      var added := Discovered(chain, cursor, known);
      match FetchParameters(chain)
      case Failure(e) => CycleRun(Failure(e), [], added)
      case Success(p) =>
        var after := known + added;
        match LiquidatableProofs(chain, after, p)
        case Failure(e) => CycleRun(Failure(e), [], added)
        case Success(proofs) =>
          var counted := CycleReport(proofs, None, |after|, |Filter(after, HasDebt(chain))|);
          if proofs == [] then CycleRun(Success(counted), [], added)
          else
            var o := SequentialLiquidation(d, exec, core, proofs);
            if o.result.Failure? then CycleRun(Failure(o.result.error), o.submitted, added)
            else
              assert proofs[..|proofs|] == proofs;
              CycleRun(Success(counted.(gain := Some(o.result.value))), o.submitted, added)
  }

  class CoreLiquidator {
    const coreAddress: Address
    const contractCreationTx: string
    var knownBorrowers: seq<Address>
    var lastBlockScanned: Option<nat>
    var lockPolling: bool

    /** Every borrower is known once. */
    ghost predicate Valid()
      reads this
    {
      NoDuplicates(knownBorrowers)
    }

    constructor(coreAddress: Address, contractCreationTx: string)
      ensures this.coreAddress == coreAddress && this.contractCreationTx == contractCreationTx
      ensures knownBorrowers == [] && lastBlockScanned == Some(0) && !lockPolling
      ensures Valid()
    {
      this.coreAddress := coreAddress;
      this.contractCreationTx := contractCreationTx;
      knownBorrowers := [];
      lastBlockScanned := Some(0);
      lockPolling := false;
    }

    /** `_initializeLastblockScanned`: only a cursor still at block 0 is set, to the block of the
        creation receipt (undefined when there is no receipt). A failed receipt read throws. */
    method InitializeLastBlockScanned(receipt: Result<Option<nat>>) returns (r: Result<Option<nat>>)
      modifies this`lastBlockScanned
      ensures old(lastBlockScanned) != Some(0) ==> lastBlockScanned == old(lastBlockScanned) && r == Success(lastBlockScanned)
      ensures old(lastBlockScanned) == Some(0) && receipt.Failure? ==>
        lastBlockScanned == old(lastBlockScanned) && r == Failure(receipt.error)
      ensures old(lastBlockScanned) == Some(0) && receipt.Success? ==>
        lastBlockScanned == receipt.value && r == receipt
    {
      if lastBlockScanned == Some(0) {
        if receipt.Failure? {
          return Failure(receipt.error);
        }
        lastBlockScanned := receipt.value;
      }
      return Success(lastBlockScanned);
    }

    /** `getLiquidatableVaults`: the new borrowers are appended first; then the parameters are
        read, and every known borrower is assessed. */
    method GetLiquidatableVaults(chain: ChainReads) returns (r: Result<seq<ScoreProof>>)
      requires Valid()
      modifies this`knownBorrowers
      ensures Valid()
      ensures knownBorrowers == old(knownBorrowers) + Discovered(chain, lastBlockScanned, old(knownBorrowers))
      ensures FetchNewBorrowers(chain, lastBlockScanned, old(knownBorrowers)).Failure? ==>
        r == Failure(FetchNewBorrowers(chain, lastBlockScanned, old(knownBorrowers)).error)
      ensures FetchNewBorrowers(chain, lastBlockScanned, old(knownBorrowers)).Success? && FetchParameters(chain).Failure? ==>
        r == Failure(FetchParameters(chain).error)
      ensures FetchNewBorrowers(chain, lastBlockScanned, old(knownBorrowers)).Success? && FetchParameters(chain).Success? ==>
        r == LiquidatableProofs(chain, knownBorrowers, FetchParameters(chain).value)
    {
      var found := FetchNewBorrowers(chain, lastBlockScanned, knownBorrowers);
      if found.Failure? {
        return Failure(found.error);
      }
      knownBorrowers := knownBorrowers + Discovered(chain, lastBlockScanned, knownBorrowers);
      var parameters := FetchParameters(chain);
      if parameters.Failure? {
        return Failure(parameters.error);
      }
      r := LiquidatableProofs(chain, knownBorrowers, parameters.value);
    }

    /** `liquidateVaults`: after the flash-liquidator lookup and the balance read, the proofs are
        submitted one after the other; the first rejected call ends the method, so exactly the
        calls before it were submitted. With every call accepted, the gain is logged once all
        transactions are mined. */
    method LiquidateVaults(d: Deployments, exec: Execution, proofs: seq<ScoreProof>) returns (outcome: LiquidationOutcome)
      ensures LiquidationSetup(d, exec).Failure? ==>
        outcome == LiquidationOutcome([], Failure(LiquidationSetup(d, exec).error))
      ensures LiquidationSetup(d, exec).Success? ==>
        var k := FirstRejected(exec, proofs);
        && outcome.submitted == CallsFor(LiquidationSetup(d, exec).value, coreAddress, proofs[..k], GAS_LIMIT)
        && outcome.result == (if k < |proofs| then Failure(SubmissionFailed) else Settlement(exec))
      ensures forall c :: c in outcome.submitted ==>
        c.account !in exec.rejected && c.gasLimit == GAS_LIMIT && c.core == coreAddress
      ensures outcome.result.Success? ==> |outcome.submitted| == |proofs|
      ensures outcome == SequentialLiquidation(d, exec, coreAddress, proofs)
    {
      var setup := LiquidationSetup(d, exec);
      if setup.Failure? {
        return LiquidationOutcome([], Failure(setup.error));
      }
      var liquidator := setup.value;
      var submitted: seq<LiquidateCall> := [];
      for i := 0 to |proofs|
        invariant forall j :: 0 <= j < i ==> proofs[j].account !in exec.rejected
        invariant submitted == CallsFor(liquidator, coreAddress, proofs[..i], GAS_LIMIT)
      {
        if proofs[i].account in exec.rejected {
          return LiquidationOutcome(submitted, Failure(SubmissionFailed));
        }
        submitted := submitted + [LiquidateCall(liquidator, coreAddress, proofs[i].account, proofs[i], GAS_LIMIT)];
      }
      assert proofs[..|proofs|] == proofs;
      return LiquidationOutcome(submitted, Settlement(exec));
    }

    /** `_getActiveBorrowersCount`: the known borrowers whose vault holds debt, read one by one;
        a failed read throws. */
    method GetActiveBorrowersCount(chain: ChainReads) returns (r: Result<nat>)
      ensures r.Success? <==> forall a :: a in knownBorrowers ==> a in chain.vaults
      ensures r.Failure? ==> r.error == ReadFailed
      ensures r.Success? ==> r.value == |Filter(knownBorrowers, HasDebt(chain))|
      ensures r.Success? ==> r.value <= |knownBorrowers|
    {
      var count := 0;
      for i := 0 to |knownBorrowers|
        invariant forall j :: 0 <= j < i ==> knownBorrowers[j] in chain.vaults
        invariant count == |Filter(knownBorrowers[..i], HasDebt(chain))|
      {
        var account := knownBorrowers[i];
        if account !in chain.vaults {
          return Failure(ReadFailed);
        }
        DebtFilterStep(chain, knownBorrowers, i);
        if chain.vaults[account].normalizedBorrowedAmount != 0 {
          count := count + 1;
        }
      }
      assert knownBorrowers[..|knownBorrowers|] == knownBorrowers;
      return Success(count);
    }

    /** The `try` block of `_pollVaults`: the liquidatable vaults, their liquidation when there
        are any, and the count of indebted known borrowers. */
    method PollCycle(chain: ChainReads, d: Deployments, exec: Execution) returns (run: CycleRun)
      requires Valid()
      modifies this`knownBorrowers
      ensures Valid()
      ensures knownBorrowers == old(knownBorrowers) + Discovered(chain, lastBlockScanned, old(knownBorrowers))
      ensures run == CycleRunOf(chain, d, exec, coreAddress, lastBlockScanned, old(knownBorrowers))
    {
      var before := knownBorrowers;
      var proofs := GetLiquidatableVaults(chain);
      var added := knownBorrowers[|before|..];
      assert before + added == knownBorrowers;
      if proofs.Failure? {
        return CycleRun(Failure(proofs.error), [], added);
      }
      var gain: Option<int> := None;
      var submitted: seq<LiquidateCall> := [];
      if |proofs.value| > 0 {
        var outcome := LiquidateVaults(d, exec, proofs.value);
        if outcome.result.Failure? {
          return CycleRun(Failure(outcome.result.error), outcome.submitted, added);
        }
        gain := Some(outcome.result.value);
        submitted := outcome.submitted;
      }
      var count := GetActiveBorrowersCount(chain);
      // every known vault was already read by the assessment of this cycle
      assert count.Success?;
      return CycleRun(Success(CycleReport(proofs.value, gain, |knownBorrowers|, count.value)), submitted, added);
    }

    /** One turn of `_pollVaults`' loop: the lock is taken, the balance checked outside the
        `try`, the cycle run inside it, and the lock released in `finally`. A balance check
        that throws leaves the lock taken. */
    method PollIteration(chain: ChainReads, d: Deployments, exec: Execution) returns (status: PollStatus)
      requires Valid()
      modifies this`knownBorrowers, this`lockPolling
      ensures Valid()
      ensures status == TurnStatus(old(lockPolling), Round(chain, exec), CycleOf(d, coreAddress, lastBlockScanned), old(knownBorrowers))
      ensures knownBorrowers == old(knownBorrowers) + (if status.Polled? then status.run.added else [])
      ensures lockPolling <==> !status.Polled?
    {
      if lockPolling {
        return Skipped;
      }
      lockPolling := true;
      if NativeBalance in chain.failedReads {
        return Escaped(ReadFailed);
      }
      var lowBalance := IsLowBalance(chain.nativeBalance);
      var run := PollCycle(chain, d, exec);
      lockPolling := false;
      return Polled(lowBalance, run);
    }

    /** `_pollVaults` over a finite run of turns: it goes on until a balance check throws. The
        cursor never moves, so every turn scans the logs from the same block. */
    method PollVaults(rounds: seq<Round>, d: Deployments) returns (statuses: seq<PollStatus>)
      requires Valid()
      modifies this`knownBorrowers, this`lockPolling
      ensures Valid()
      ensures PollTurns(old(lockPolling), rounds, CycleOf(d, coreAddress, lastBlockScanned), old(knownBorrowers))
        == PollRun(statuses, knownBorrowers, lockPolling)
    {
      ghost var locked, cycle := lockPolling, CycleOf(d, coreAddress, lastBlockScanned);
      ghost var all := PollTurns(locked, rounds, cycle, knownBorrowers);
      statuses := [];
      var i := 0;
      assert rounds[i..] == rounds;
      while i < |rounds|
        invariant 0 <= i <= |rounds|
        invariant Valid() && cycle == CycleOf(d, coreAddress, lastBlockScanned) && lockPolling == locked
        invariant all.statuses == statuses + PollTurns(locked, rounds[i..], cycle, knownBorrowers).statuses
        invariant all.known == PollTurns(locked, rounds[i..], cycle, knownBorrowers).known
        invariant all.locked == PollTurns(locked, rounds[i..], cycle, knownBorrowers).locked
      {
        ghost var before := knownBorrowers;
        var status := PollIteration(rounds[i].chain, d, rounds[i].exec);
        PollTurnsStep(locked, rounds, i, cycle, before, status, knownBorrowers, statuses, all);
        statuses := statuses + [status];
        if status.Escaped? {
          return;
        }
        i := i + 1;
      }
      assert statuses + [] == statuses;
    }
  }
}
