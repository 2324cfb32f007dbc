/** What one polling cycle of an engine reads from the chain and the score API, and the steps
    both engine variants share: borrower discovery over a block range, the parameter snapshot,
    the assessment of every tracked borrower, and the liquidation submissions. */
module Cycle {
  import opened Common
  import opened Parameters
  import opened Assessor
  import opened Borrowers
  import opened Registry

  /** The reads of a cycle that can throw as a whole. */
  datatype Read = BlockNumber | Logs | CoreParameterReads | NativeBalance

  /** A `Borrowed` log of the core together with the block it was mined in. */
  datatype BlockLog = BlockLog(block: nat, log: Log)

  /** The answers the chain and the score API give during one cycle. An account missing from
      `vaults` is one whose `core.vaults(account)` read throws; an account missing from
      `scoreProofs` is one the score API has no proof for (`getScoreProof` gives `undefined`). */
  datatype ChainReads = ChainReads(
    head: nat,
    history: seq<BlockLog>,
    failedReads: set<Read>,
    parameters: RawParameters,
    vaults: map<Address, Vault>,
    scoreProofs: map<Address, ScoreProof>,
    nativeBalance: nat)

  /** What the chain answers an engine during one polling round. */
  datatype Round = Round(chain: ChainReads, exec: Execution)

  // ---------------------------------------------------------------------------------------
  // Borrower discovery

  /** The logs of `history` mined in blocks `from` to `to`, in history order. */
  function LogsInRange(history: seq<BlockLog>, from: nat, to: nat): (logs: seq<Log>)
    ensures |logs| <= |history|
    ensures forall log :: log in logs <==> exists bl :: bl in history && from <= bl.block <= to && bl.log == log
  {
    if history == [] then []
    else
      var rest := LogsInRange(history[1..], from, to);
      assert forall bl :: bl in history[1..] ==> bl in history;
      if from <= history[0].block <= to then [history[0].log] + rest else rest
  }

  /** `provider.getLogs({fromBlock: lastBlockScanned, toBlock: 'latest'})`; an undefined
      `fromBlock` means the latest block. */
  function GetLogs(chain: ChainReads, fromBlock: Option<nat>): (r: Result<seq<Log>>)
    ensures r.Success? <==> Logs !in chain.failedReads
    ensures r.Success? ==> r.value == LogsInRange(chain.history, if fromBlock.Some? then fromBlock.value else chain.head, chain.head)
  {
    if Logs in chain.failedReads then Failure(ReadFailed)
    else Success(LogsInRange(chain.history, if fromBlock.Some? then fromBlock.value else chain.head, chain.head))
  }

  /** `_getNewBorrowers`: the borrowers of the logs from `fromBlock` on, each once in first-seen
      order, without those already in `tracked`. */
  function FetchNewBorrowers(chain: ChainReads, fromBlock: Option<nat>, tracked: seq<Address>): (r: Result<seq<Address>>)
    ensures r.Success? <==> GetLogs(chain, fromBlock).Success? && BorrowersFromLogs(GetLogs(chain, fromBlock).value).Success?
    ensures r.Failure? && Logs !in chain.failedReads ==> r.error == MalformedLog
    ensures r.Success? ==> NoDuplicates(r.value)
    ensures r.Success? ==> forall b :: b in r.value <==>
      b in BorrowersFromLogs(GetLogs(chain, fromBlock).value).value && b !in tracked
    ensures r.Success? ==> IsSubsequence(r.value, Unique(BorrowersFromLogs(GetLogs(chain, fromBlock).value).value))
  {
    match GetLogs(chain, fromBlock)
    case Failure(e) => Failure(e)
    case Success(logs) => NewBorrowers(logs, tracked)
  }

  /** A borrower none of whose logs lies at or after `fromBlock` is not discovered from there. */
  lemma {:induction false} NoLogNoDiscovery(chain: ChainReads, fromBlock: nat, tracked: seq<Address>, b: Address)
    requires forall bl :: bl in chain.history && BorrowerOf(bl.log) == Success(b) ==> bl.block < fromBlock
    requires FetchNewBorrowers(chain, Some(fromBlock), tracked).Success?
    ensures b !in FetchNewBorrowers(chain, Some(fromBlock), tracked).value
  {
    var logs := GetLogs(chain, Some(fromBlock)).value;
    var bs := BorrowersFromLogs(logs).value;
    forall i | 0 <= i < |logs| ensures bs[i] != b {
      assert logs[i] in logs;
      var bl :| bl in chain.history && fromBlock <= bl.block <= chain.head && bl.log == logs[i];
      assert BorrowerOf(bl.log) == Success(bs[i]);
    }
  }

  // ---------------------------------------------------------------------------------------
  // Parameters and assessment

  /** The batched parameter reads followed by `_getCoreParameters`' validation. */
  function FetchParameters(chain: ChainReads): (r: Result<CoreParameters>)
    ensures CoreParameterReads in chain.failedReads ==> r == Failure(ReadFailed)
    ensures CoreParameterReads !in chain.failedReads ==> r == GetCoreParameters(chain.parameters)
  {
    if CoreParameterReads in chain.failedReads then Failure(ReadFailed) else GetCoreParameters(chain.parameters)
  }

  /** What `getScoreProof(account, protocol)` gives. */
  function FetchedProof(chain: ChainReads, account: Address): Option<ScoreProof> {
    if account in chain.scoreProofs then Some(chain.scoreProofs[account]) else None
  }

  /** `checkLiquidatable(account, core, coreParameters)` with its two reads: the vault read
      throws for an account the chain does not answer for. */
  function AssessAccount(chain: ChainReads, account: Address, p: CoreParameters): Result<Assessment> {
    if account !in chain.vaults then Failure(ReadFailed)
    else CheckLiquidatable(account, p, chain.vaults[account], FetchedProof(chain, account))
  }

  predicate JudgedLiquidatable(chain: ChainReads, account: Address, p: CoreParameters) {
    AssessAccount(chain, account, p).Success? && AssessAccount(chain, account, p).value.isLiquidatable
  }

  function Liquidatable(chain: ChainReads, p: CoreParameters): Address -> bool {
    (a: Address) => JudgedLiquidatable(chain, a, p)
  }

  /** The proofs the assessments of `accounts` carry, one per account, in account order. */
  function ProofsOf(chain: ChainReads, accounts: seq<Address>, p: CoreParameters): (proofs: seq<ScoreProof>)
    requires forall a :: a in accounts ==> AssessAccount(chain, a, p).Success?
    ensures |proofs| == |accounts|
    ensures forall i :: 0 <= i < |accounts| ==> proofs[i] == AssessAccount(chain, accounts[i], p).value.proof
  {
    seq(|accounts|, i requires 0 <= i < |accounts| => AssessAccount(chain, accounts[i], p).value.proof)
  }

  /** `Promise.all(accounts.map(checkLiquidatable)).filter(isLiquidatable).map(proof)`: one
      assessment that throws makes the whole step throw; otherwise the proofs of the
      liquidatable accounts, in account order. */
  function LiquidatableProofs(chain: ChainReads, accounts: seq<Address>, p: CoreParameters): (r: Result<seq<ScoreProof>>)
    ensures r.Success? <==> forall a :: a in accounts ==> AssessAccount(chain, a, p).Success?
    ensures r.Success? ==> r.value == ProofsOf(chain, Filter(accounts, Liquidatable(chain, p)), p)
    ensures r.Success? ==> |r.value| <= |accounts|
    ensures r.Success? ==> forall a :: a in accounts && JudgedLiquidatable(chain, a, p) ==>
      AssessAccount(chain, a, p).value.proof in r.value
    ensures r.Success? ==> forall pr :: pr in r.value ==>
      exists a :: a in accounts && JudgedLiquidatable(chain, a, p) && AssessAccount(chain, a, p).value.proof == pr
  {
    if accounts == [] then Success([])
    else
      assert forall a :: a in accounts[1..] ==> a in accounts;
      match AssessAccount(chain, accounts[0], p)
      case Failure(e) => Failure(e)
      case Success(assessment) =>
        match LiquidatableProofs(chain, accounts[1..], p)
        case Failure(e) => Failure(e)
        case Success(rest) =>
          assert forall a :: a in accounts ==> a == accounts[0] || a in accounts[1..];
          var head := if assessment.isLiquidatable then [accounts[0]] else [];
          var kept := Filter(accounts[1..], Liquidatable(chain, p));
          assert Filter(accounts, Liquidatable(chain, p)) == head + kept;
          ProofsOfAppend(chain, head, kept, p);
          var first := if assessment.isLiquidatable then [assessment.proof] else [];
          assert ProofsOf(chain, head, p) == first;
          assert rest == ProofsOf(chain, kept, p);
          Success(first + rest)
  }

  lemma ProofsOfAppend(chain: ChainReads, xs: seq<Address>, ys: seq<Address>, p: CoreParameters)
    requires forall a :: a in xs + ys ==> AssessAccount(chain, a, p).Success?
    ensures ProofsOf(chain, xs + ys, p) == ProofsOf(chain, xs, p) + ProofsOf(chain, ys, p)
  {
    assert forall a :: a in xs ==> a in xs + ys;
    assert forall a :: a in ys ==> a in xs + ys;
  }

  /** With every tracked vault free of debt, nothing is selected for liquidation. */
  lemma {:induction false} DebtFreeVaultsAreNeverSelected(chain: ChainReads, accounts: seq<Address>, p: CoreParameters)
    requires forall a :: a in accounts ==> a in chain.vaults && chain.vaults[a].normalizedBorrowedAmount == 0
    requires LiquidatableProofs(chain, accounts, p).Success?
    ensures LiquidatableProofs(chain, accounts, p).value == []
  {
    if accounts != [] {
      assert forall a :: a in accounts[1..] ==> a in accounts;
      DebtFreeVaultsAreNeverSelected(chain, accounts[1..], p);
    }
  }

  /** An account whose vault was read and holds debt. */
  function HasDebt(chain: ChainReads): Address -> bool {
    (a: Address) => a in chain.vaults && chain.vaults[a].normalizedBorrowedAmount != 0
  }

  /** One more read vault extends the accounts with debt exactly when it holds debt. */
  lemma DebtFilterStep(chain: ChainReads, accounts: seq<Address>, i: nat)
    requires i < |accounts| && accounts[i] in chain.vaults
    ensures chain.vaults[accounts[i]].normalizedBorrowedAmount != 0 ==>
      Filter(accounts[..i + 1], HasDebt(chain)) == Filter(accounts[..i], HasDebt(chain)) + [accounts[i]]
    ensures chain.vaults[accounts[i]].normalizedBorrowedAmount == 0 ==>
      Filter(accounts[..i + 1], HasDebt(chain)) == Filter(accounts[..i], HasDebt(chain))
  {
    assert accounts[..i + 1] == accounts[..i] + [accounts[i]];
    FilterAppend(accounts[..i], [accounts[i]], HasDebt(chain));
  }

  // ---------------------------------------------------------------------------------------
  // Balance check

  /** `utils.parseEther('0.5')`. */
  const HALF_ETHER: nat := 500_000_000_000_000_000

  /** `_checkBalance` raises its alert when the signer's native balance is below half a unit. */
  predicate IsLowBalance(balance: nat) {
    balance < HALF_ETHER
  }

  // ---------------------------------------------------------------------------------------
  // Liquidation

  /** What the chain does with the liquidation transactions of a cycle. */
  datatype Execution = Execution(
    chainId: Option<nat>,          // signer.provider.getNetwork(); None = threw
    balanceBefore: Option<nat>,    // _getLiquidatorBalance before; None = threw
    balanceAfter: Option<nat>,     // _getLiquidatorBalance after; None = threw
    rejected: set<Address>,        // accounts whose liquidate call is rejected on submission
    confirmed: bool)               // every submitted transaction is mined (tx.wait resolves)

  /** `flashLiquidator.liquidate(core, account, proof, {gasLimit})`. */
  datatype LiquidateCall = LiquidateCall(
    liquidator: Address,
    core: Address,
    account: Address,
    proof: ScoreProof,
    gasLimit: nat)

  /** The calls a `liquidateVaults` submitted and how it ended; a success carries the logged
      gain of the liquidator's borrow-asset balance. */
  datatype LiquidationOutcome = LiquidationOutcome(submitted: seq<LiquidateCall>, result: Result<int>)

  predicate IsDigit(c: char) {
    '0' <= c <= '9'
  }

  /** The number a string of decimal digits denotes. */
  function DecimalValue(s: string): nat
    requires forall i :: 0 <= i < |s| ==> IsDigit(s[i])
  {
    if s == [] then 0
    else
      assert IsDigit(s[|s| - 1]);
      10 * DecimalValue(s[..|s| - 1]) + (s[|s| - 1] as int - '0' as int)
  }

  function DigitChar(d: nat): (c: char)
    requires d < 10
    ensures IsDigit(c) && c as int - '0' as int == d
  {
    ('0' as int + d) as char
  }

  /** `chainId.toString()`: decimal digits without leading zeros. */
  function NatToDecimal(n: nat): (s: string)
    ensures |s| >= 1 && forall i :: 0 <= i < |s| ==> IsDigit(s[i])
    ensures n > 0 ==> s[0] != '0'
    ensures DecimalValue(s) == n
  {
    if n < 10 then [DigitChar(n)]
    else
      var prefix := NatToDecimal(n / 10);
      var s := prefix + [DigitChar(n % 10)];
      assert s[..|s| - 1] == prefix;
      s
  }

  /** The registry entry of the flash liquidator on the signer's network. */
  function FlashLiquidator(d: Deployments, chainId: nat): Result<ContractDetails> {
    LoadContract(d, LoadContractParams(NatToDecimal(chainId), "FlashLiquidator", "", "", ""))
  }

  /** Polygon's chain id in decimal. */
  lemma PolygonChainIdString()
    ensures NatToDecimal(137) == "137"
  {
    assert NatToDecimal(13) == "13" by {
      assert NatToDecimal(1) == "1";
    }
  }

  /** On Polygon (chain id 137) the flash liquidator found is the Polygon table's only entry
      named "FlashLiquidator". */
  lemma FlashLiquidatorOnPolygon(d: Deployments)
    requires FlashLiquidator(d, 137).Success?
    ensures FlashLiquidator(d, 137).value in d.polygon
    ensures FlashLiquidator(d, 137).value.name == "FlashLiquidator"
    ensures forall c :: c in d.polygon && c.name == "FlashLiquidator" ==> c == FlashLiquidator(d, 137).value
  {
    var params := LoadContractParams(NatToDecimal(137), "FlashLiquidator", "", "", "");
    PolygonChainIdString();
    assert LoadContractsForNetwork(d, params.network) == d.polygon;
    LoadContractFindsTheUniqueMatch(d, params);
  }

  lemma DecimalValueOf137()
    ensures DecimalValue("137") == 137
  {
    assert "137"[..2] == "13";
    assert "13"[..1] == "1";
  }

  lemma DecimalValueOf80001()
    ensures DecimalValue("80001") == 80001
  {
    assert "80001"[..4] == "8000";
    assert "8000"[..3] == "800";
    assert "800"[..2] == "80";
    assert "80"[..1] == "8";
  }

  /** The only digit strings the registry knows as networks are the chain ids 1, 4, 137 and 80001. */
  lemma KnownDigitStrings(s: string)
    requires |s| >= 1 && forall i :: 0 <= i < |s| ==> IsDigit(s[i])
    requires IsKnownNetwork(s)
    ensures DecimalValue(s) == 1 || DecimalValue(s) == 4 || DecimalValue(s) == 137 || DecimalValue(s) == 80001
  {
    assert IsDigit(s[0]);
    assert s == "1" || s == "4" || s == "137" || s == "80001";
    if s == "1" {
      assert DecimalValue("1") == 1;
    } else if s == "4" {
      assert DecimalValue("4") == 4;
    } else if s == "137" {
      DecimalValueOf137();
    } else {
      DecimalValueOf80001();
    }
  }

  /** On a chain whose id is not 1, 4, 137 or 80001 no flash liquidator is found, so every
      liquidation attempt throws. */
  lemma FlashLiquidatorOnUnknownChain(d: Deployments, chainId: nat)
    requires chainId !in {1, 4, 137, 80001}
    ensures FlashLiquidator(d, chainId) == Failure(NoContractsFound)
  {
    var s := NatToDecimal(chainId);
    assert !IsKnownNetwork(s) by {
      if IsKnownNetwork(s) {
        KnownDigitStrings(s);
      }
    }
    UnknownNetworkHasNoContract(d, LoadContractParams(s, "FlashLiquidator", "", "", ""));
  }

  /** The liquidate calls for `proofs`, in order, each with the given gas limit. */
  function CallsFor(liquidator: Address, core: Address, proofs: seq<ScoreProof>, gasLimit: nat): (calls: seq<LiquidateCall>)
    ensures |calls| == |proofs|
    ensures forall i :: 0 <= i < |proofs| ==>
      calls[i] == LiquidateCall(liquidator, core, proofs[i].account, proofs[i], gasLimit)
  {
    seq(|proofs|, i requires 0 <= i < |proofs| => LiquidateCall(liquidator, core, proofs[i].account, proofs[i], gasLimit))
  }

  /** Both engines look up the flash liquidator, then record the balance before submitting;
      either step throwing ends `liquidateVaults` before any call. */
  function LiquidationSetup(d: Deployments, exec: Execution): (r: Result<Address>)
    ensures r.Success? <==>
      exec.chainId.Some? && FlashLiquidator(d, exec.chainId.value).Success? && exec.balanceBefore.Some?
    ensures r.Success? ==> r.value == FlashLiquidator(d, exec.chainId.value).value.address
  {
    if exec.chainId.None? then Failure(ReadFailed)
    else match FlashLiquidator(d, exec.chainId.value)
      case Failure(e) => Failure(e)
      case Success(details) =>
        if exec.balanceBefore.None? then Failure(ReadFailed) else Success(details.address)
  }

  /** Waiting for every submitted transaction, then reading the balance again: the gain. */
  function Settlement(exec: Execution): (r: Result<int>)
    requires exec.balanceBefore.Some?
    ensures r.Success? <==> exec.confirmed && exec.balanceAfter.Some?
    ensures r.Success? ==> r.value == exec.balanceAfter.value - exec.balanceBefore.value
  {
    if !exec.confirmed then Failure(ConfirmationFailed)
    else if exec.balanceAfter.None? then Failure(ReadFailed)
    else Success(exec.balanceAfter.value - exec.balanceBefore.value)
  }

  /** The index of the first proof whose liquidate call is rejected, or `|proofs|`. */
  function FirstRejected(exec: Execution, proofs: seq<ScoreProof>): (k: nat)
    ensures k <= |proofs|
    ensures forall i :: 0 <= i < k ==> proofs[i].account !in exec.rejected
    ensures k < |proofs| ==> proofs[k].account in exec.rejected
  {
    if proofs == [] || proofs[0].account in exec.rejected then 0
    else 1 + FirstRejected(exec, proofs[1..])
  }

  function NotRejected(exec: Execution): ScoreProof -> bool {
    (proof: ScoreProof) => proof.account !in exec.rejected
  }
}
