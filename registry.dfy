/** The contract registry: deployment tables per network and the partial-match lookup
    over them (`loadContractsForNetwork`, `loadContracts`, `loadContract`). */
module Registry {
  import opened Common

  /** One entry of a deployment table. */
  datatype ContractDetails = ContractDetails(
    name: string,
    contractType: string,
    group: string,
    source: string,
    address: Address,
    txn: string)

  /** The lookup filter. An empty string stands for an absent (falsy) field. */
  datatype LoadContractParams = LoadContractParams(
    network: string,
    name: string,
    contractType: string,
    source: string,
    group: string)

  /** The four deployment tables bundled with the contracts package; their contents are not known here. */
  datatype Deployments = Deployments(
    mainnet: seq<ContractDetails>,
    rinkeby: seq<ContractDetails>,
    polygon: seq<ContractDetails>,
    mumbai: seq<ContractDetails>)

  predicate IsKnownNetwork(chainId: string) {
    chainId in {"homestead", "1", "rinkeby", "4", "polygon", "137", "mumbai", "80001"}
  }

  /** The deployment table for a network name or chain id; `[]` for any other string. */
  function LoadContractsForNetwork(d: Deployments, chainId: string): (table: seq<ContractDetails>)
    ensures chainId == "homestead" || chainId == "1" ==> table == d.mainnet
    ensures chainId == "rinkeby" || chainId == "4" ==> table == d.rinkeby
    ensures chainId == "polygon" || chainId == "137" ==> table == d.polygon
    ensures chainId == "mumbai" || chainId == "80001" ==> table == d.mumbai
    ensures !IsKnownNetwork(chainId) ==> table == []
  {
    if chainId == "homestead" || chainId == "1" then d.mainnet
    else if chainId == "rinkeby" || chainId == "4" then d.rinkeby
    else if chainId == "polygon" || chainId == "137" then d.polygon
    else if chainId == "mumbai" || chainId == "80001" then d.mumbai
    else []
  }

  /** A filter field constrains an entry only when it is truthy (`_.pickBy(params, _.identity)`). */
  predicate FieldMatches(filter: string, value: string) {
    filter == "" || filter == value
  }

  /** `_.matches` of the truthy fields other than `network`. */
  predicate Matches(params: LoadContractParams, c: ContractDetails) {
    && FieldMatches(params.name, c.name)
    && FieldMatches(params.contractType, c.contractType)
    && FieldMatches(params.source, c.source)
    && FieldMatches(params.group, c.group)
  }

  function MatchesParams(params: LoadContractParams): ContractDetails -> bool {
    c => Matches(params, c)
  }

  /** `loadContracts`: the entries of the network's table that match the filter, in table order. */
  function LoadContracts(d: Deployments, params: LoadContractParams): (r: seq<ContractDetails>)
    ensures IsSubsequence(r, LoadContractsForNetwork(d, params.network))
    ensures forall c :: c in r <==> c in LoadContractsForNetwork(d, params.network) && Matches(params, c)
  {
    FilterIsSubsequence(LoadContractsForNetwork(d, params.network), MatchesParams(params));
    Filter(LoadContractsForNetwork(d, params.network), MatchesParams(params))
  }

  /** With only the network given, every entry of the network's table is returned. */
  lemma NetworkOnlyGivesWholeTable(d: Deployments, network: string)
    ensures LoadContracts(d, LoadContractParams(network, "", "", "", "")) == LoadContractsForNetwork(d, network)
  {
    var params := LoadContractParams(network, "", "", "", "");
    FilterKeepsAll(LoadContractsForNetwork(d, network), MatchesParams(params));
  }

  /** `loadContract`: the single matching entry; no match and several matches are both errors. */
  function LoadContract(d: Deployments, params: LoadContractParams): (r: Result<ContractDetails>)
    ensures r == Failure(NoContractsFound) <==> LoadContracts(d, params) == []
    ensures r == Failure(MoreThanOneContract) <==> |LoadContracts(d, params)| > 1
    ensures r.Success? <==> |LoadContracts(d, params)| == 1
    ensures r.Success? ==> LoadContracts(d, params) == [r.value]
  {
    var results := LoadContracts(d, params);
    if |results| == 0 then Failure(NoContractsFound)
    else if |results| > 1 then Failure(MoreThanOneContract)
    else Success(results[0])
  }

  /** A contract found by `loadContract` is in the network's table, matches the filter,
      and is the only entry of the table that does. */
  lemma LoadContractFindsTheUniqueMatch(d: Deployments, params: LoadContractParams)
    requires LoadContract(d, params).Success?
    ensures var c := LoadContract(d, params).value;
      && c in LoadContractsForNetwork(d, params.network)
      && Matches(params, c)
      && forall e :: e in LoadContractsForNetwork(d, params.network) && Matches(params, e) ==> e == c
  {
    var c := LoadContract(d, params).value;
    assert c in LoadContracts(d, params);
  }

  /** On a network the registry does not know, `loadContract` always reports that nothing was found. */
  lemma UnknownNetworkHasNoContract(d: Deployments, params: LoadContractParams)
    requires !IsKnownNetwork(params.network)
    ensures LoadContract(d, params) == Failure(NoContractsFound)
  {
  }
}
