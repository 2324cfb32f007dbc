/** The supervisor (`src/ARCx/ArcxLiquidator.ts`): a single instance that builds one pruning
    engine per Polygon core, polls them all every interval and posts a throttled daily report. */
module Supervisor {
  import opened Common
  import opened Borrowers
  import opened Registry
  import opened Cycle
  import opened PruningEngine

  /** `POLL_INTERVAL_MS`: five minutes. */
  const POLL_INTERVAL_MS: nat := 300_000

  /** `REPORT_INTERVAL_MS`: one day. */
  const REPORT_INTERVAL_MS: nat := 86_400_000

  /** `POLL_INTERVAL_MS / (60 * 1000)`, the polling period the report gives in minutes. */
  const POLL_FREQUENCY_MINS: nat := POLL_INTERVAL_MS / 60_000

  /** One value of `coresDict`. */
  datatype CoreEntry = CoreEntry(address: Address, creationTx: string)

  /** What the report logs: the number of tracked positions and the polling period. */
  datatype DailyReport = DailyReport(totalActiveBorrowers: nat, pollFrequencyMins: nat)

  function EntryOf(c: ContractDetails): CoreEntry {
    CoreEntry(c.address, c.txn)
  }

  /** The entry the last contract of group `g` gives, if any contract has that group. */
  function LastWithGroup(contracts: seq<ContractDetails>, g: string): (r: Option<CoreEntry>)
    ensures r.None? <==> forall c :: c in contracts ==> c.group != g
    ensures r.Some? ==> exists k ::
      && 0 <= k < |contracts|
      && contracts[k].group == g
      && r.value == EntryOf(contracts[k])
      && forall j :: k < j < |contracts| ==> contracts[j].group != g
  {
    if contracts == [] then None
    else
      var init := contracts[..|contracts| - 1];
      var last := contracts[|contracts| - 1];
      assert forall c :: c in contracts ==> c in init || c == last;
      assert forall j :: 0 <= j < |init| ==> init[j] == contracts[j];
      if last.group == g then Some(EntryOf(last)) else LastWithGroup(init, g)
  }

  /** The loop that fills `coresDict`: one entry per group, from the last contract of that group. */
  method BuildCoresDict(contracts: seq<ContractDetails>) returns (dict: map<string, CoreEntry>)
    ensures forall g :: g in dict <==> exists c :: c in contracts && c.group == g
    ensures forall g :: g in dict ==> LastWithGroup(contracts, g) == Some(dict[g])
  {
    dict := map[];
    for i := 0 to |contracts|
      invariant forall g :: g in dict ==> LastWithGroup(contracts[..i], g) == Some(dict[g])
      invariant forall g :: g !in dict ==> LastWithGroup(contracts[..i], g) == None
    {
      assert contracts[..i + 1][..i] == contracts[..i];
      dict := dict[contracts[i].group := EntryOf(contracts[i])];
    }
    assert contracts[..|contracts|] == contracts;
  }

  function Groups(contracts: seq<ContractDetails>): (gs: seq<string>)
    ensures |gs| == |contracts| && forall i :: 0 <= i < |contracts| ==> gs[i] == contracts[i].group
  {
    seq(|contracts|, i requires 0 <= i < |contracts| => contracts[i].group)
  }

  /** `Object.keys(coresDict)`: the groups in the order they were first inserted. */
  function CoreNames(contracts: seq<ContractDetails>): (names: seq<string>)
    ensures NoDuplicates(names)
    ensures forall g :: g in names <==> exists c :: c in contracts && c.group == g
  {
    var gs := Groups(contracts);
    assert forall g :: g in gs <==> exists c :: c in contracts && c.group == g by {
      forall g | g in gs ensures exists c :: c in contracts && c.group == g {
        var i :| 0 <= i < |gs| && gs[i] == g;
        assert contracts[i] in contracts;
      }
      forall c | c in contracts ensures c.group in gs {
        var i :| 0 <= i < |contracts| && contracts[i] == c;
        assert gs[i] == c.group;
      }
    }
    Unique(gs)
  }

  /** The registry query of `start`: every Polygon core proxy. */
  function CoreQuery(): LoadContractParams {
    LoadContractParams("polygon", "SapphireCoreProxy", "", "", "")
  }

  /** `coreLiquidators`: one new engine per core name, for the core's address and creation
      transaction. */
  method CreateLiquidators(dict: map<string, CoreEntry>, names: seq<string>) returns (liquidators: seq<CoreLiquidator>)
    requires forall g :: g in names ==> g in dict
    ensures |liquidators| == |names|
    ensures forall i :: 0 <= i < |names| ==>
      && fresh(liquidators[i])
      && liquidators[i].coreAddress == dict[names[i]].address
      && liquidators[i].contractCreationTx == dict[names[i]].creationTx
      && liquidators[i].State() == EngineState([], Some(0))
      && liquidators[i].Valid()
    ensures forall i, j :: 0 <= i < j < |liquidators| ==> liquidators[i] != liquidators[j]
  {
    liquidators := [];
    for i := 0 to |names|
      invariant |liquidators| == i
      invariant forall k :: 0 <= k < i ==>
        && fresh(liquidators[k])
        && liquidators[k].coreAddress == dict[names[k]].address
        && liquidators[k].contractCreationTx == dict[names[k]].creationTx
        && liquidators[k].State() == EngineState([], Some(0))
        && liquidators[k].Valid()
      invariant forall k, j :: 0 <= k < j < i ==> liquidators[k] != liquidators[j]
    {
      var entry := dict[names[i]];
      var liquidator := new CoreLiquidator(entry.address, entry.creationTx);
      liquidators := liquidators + [liquidator];
    }
  }

  /** The sum `reduce` computes over the engines' active lists. */
  function TotalActiveBorrowers(liquidators: seq<CoreLiquidator>): nat
    reads liquidators
  {
    if liquidators == [] then 0
    else |liquidators[0].activeBorrowers| + TotalActiveBorrowers(liquidators[1..])
  }

  class ArcxLiquidator {
    const signer: Address
    var lastReportDate: int

    /** The last report is dated at the epoch, so the first report is never throttled. */
    constructor(signer: Address)
      ensures this.signer == signer && lastReportDate == 0
    {
      this.signer := signer;
      lastReportDate := 0;
    }

    /** `start`'s set-up: the Polygon core proxies from the registry, `coresDict`, and one new
        engine per core; every core group gets exactly one engine. */
    method CreateCoreLiquidators(d: Deployments) returns (liquidators: seq<CoreLiquidator>)
      ensures |liquidators| == |CoreNames(LoadContracts(d, CoreQuery()))|
      ensures forall i :: 0 <= i < |liquidators| ==>
        var g := CoreNames(LoadContracts(d, CoreQuery()))[i];
        && fresh(liquidators[i])
        && LastWithGroup(LoadContracts(d, CoreQuery()), g) == Some(CoreEntry(liquidators[i].coreAddress, liquidators[i].contractCreationTx))
        && liquidators[i].State() == EngineState([], Some(0))
        && liquidators[i].Valid()
      ensures forall i, j :: 0 <= i < j < |liquidators| ==> liquidators[i] != liquidators[j]
    {
      var contracts := LoadContracts(d, CoreQuery());
      var dict := BuildCoresDict(contracts);
      var names := CoreNames(contracts);
      assert forall g :: g in names ==> g in dict;
      liquidators := CreateLiquidators(dict, names);
      forall i | 0 <= i < |liquidators|
        ensures LastWithGroup(contracts, names[i]) == Some(CoreEntry(liquidators[i].coreAddress, liquidators[i].contractCreationTx))
      {
        assert names[i] in names;
      }
    }

    /** `pollVaults`: every engine runs one cycle; an engine catches its own errors, so one
        engine's failure does not touch another. */
    method PollAll(liquidators: seq<CoreLiquidator>, rounds: seq<Round>, d: Deployments)
      requires |rounds| == |liquidators|
      requires forall i, j :: 0 <= i < j < |liquidators| ==> liquidators[i] != liquidators[j]
      requires forall l :: l in liquidators ==> l.Valid()
      modifies liquidators
      ensures forall i :: 0 <= i < |liquidators| ==>
        && liquidators[i].Valid()
        && liquidators[i].State() == PollCycle(old(liquidators[i].State()), rounds[i].chain, d, rounds[i].exec, liquidators[i].coreAddress).state
    {
      for i := 0 to |liquidators|
        invariant forall k :: 0 <= k < i ==>
          && liquidators[k].Valid()
          && liquidators[k].State() == PollCycle(old(liquidators[k].State()), rounds[k].chain, d, rounds[k].exec, liquidators[k].coreAddress).state
        invariant forall k :: i <= k < |liquidators| ==>
          liquidators[k].State() == old(liquidators[k].State()) && liquidators[k].Valid()
      {
        label before:
        var _, _ := liquidators[i].PollVaults(rounds[i].chain, d, rounds[i].exec);
        assert forall k :: 0 <= k < |liquidators| && k != i ==>
          liquidators[k].State() == old@before(liquidators[k].State()) && liquidators[k].Valid();
      }
    }

    /** `report`: nothing within a day of the last report; otherwise the total of the engines'
        active borrowers and the polling period, and the report date moves to `now`. */
    method Report(now: int, liquidators: seq<CoreLiquidator>) returns (report: Option<DailyReport>)
      modifies this`lastReportDate
      ensures now - old(lastReportDate) < REPORT_INTERVAL_MS ==> report == None && lastReportDate == old(lastReportDate)
      ensures now - old(lastReportDate) >= REPORT_INTERVAL_MS ==>
        report == Some(DailyReport(TotalActiveBorrowers(liquidators), POLL_FREQUENCY_MINS)) && lastReportDate == now
    {
      if now - lastReportDate < REPORT_INTERVAL_MS {
        return None;
      }
      report := Some(DailyReport(TotalActiveBorrowers(liquidators), POLL_FREQUENCY_MINS));
      lastReportDate := now;
    }

    /** One tick of `start`'s interval (and its initial call): poll every engine, then report. */
    method Tick(now: int, liquidators: seq<CoreLiquidator>, rounds: seq<Round>, d: Deployments) returns (report: Option<DailyReport>)
      requires |rounds| == |liquidators|
      requires forall i, j :: 0 <= i < j < |liquidators| ==> liquidators[i] != liquidators[j]
      requires forall l :: l in liquidators ==> l.Valid()
      modifies liquidators, this`lastReportDate
      ensures forall i :: 0 <= i < |liquidators| ==>
        && liquidators[i].Valid()
        && liquidators[i].State() == PollCycle(old(liquidators[i].State()), rounds[i].chain, d, rounds[i].exec, liquidators[i].coreAddress).state
      ensures now - old(lastReportDate) < REPORT_INTERVAL_MS ==> report == None && lastReportDate == old(lastReportDate)
      ensures now - old(lastReportDate) >= REPORT_INTERVAL_MS ==>
        report == Some(DailyReport(TotalActiveBorrowers(liquidators), POLL_FREQUENCY_MINS)) && lastReportDate == now
    {
      PollAll(liquidators, rounds, d);
      report := Report(now, liquidators);
    }
  }

  /** The static `_instance` slot of `getInstance`. */
  class InstanceSlot {
    var instance: ArcxLiquidator?

    constructor()
      ensures instance == null
    {
      instance := null;
    }

    /** `getInstance`: the first call creates the supervisor for its signer; every later call
        returns that same supervisor, whatever signer it is given. */
    method GetInstance(signer: Address) returns (l: ArcxLiquidator)
      modifies this
      ensures old(instance) != null ==> l == old(instance) && instance == old(instance)
      ensures old(instance) == null ==> fresh(l) && l.signer == signer && l.lastReportDate == 0 && instance == l
    {
      if instance == null {
        instance := new ArcxLiquidator(signer);
      }
      l := instance;
    }
  }
}
