/** The records the provider side works on: operator keys with their
    lifecycle state and remediation history, address groups with their
    service and revenue-share rules, and the supplier record read from the
    chain. Shapes follow the provider database schema and the Pocket
    protocol types; only the fields the core reads or writes are kept. */
module ProviderModel {
  import opened Common

  /** Lifecycle states of an operator key. */
  datatype KeyState =
    | Imported | Available | Delivered | Staked | Unstaking | Unstaked
    | MissingStake | AttentionNeeded | RemediationFailed

  /** Why a remediation entry was recorded. */
  datatype Reason =
    | OwnerInitialStake | SupplierFundsTooLow | SupplierStakeTooLow | DelegatorAddressMissing

  /** The text of a remediation entry. The findings the reconciliation
      records carry fixed wording, the thresholds printed in decimal; the
      entry keeps which wording it carries and `SupplierActivities.MessageText`
      spells it out. */
  datatype Message =
    | OwnerInitialStakeText
    | FundsTooLowText(minimumOperationalFunds: nat)
    | StakeTooLowText(minimumStake: nat)
    | DelegatorAddressMissingText

  /** One finding in a key's remediation history; the two transaction
      fields are filled in once a corrective stake has been attempted. */
  datatype RemediationEntry = RemediationEntry(
    reason: Reason,
    message: Message,
    timestamp: int,
    txResult: Option<int>,
    txResultDetails: Option<string>)

  /** The protocol's RPC types (`UNKNOWN_RPC`, `GRPC`, `WEBSOCKET`,
      `JSON_RPC`, `REST`, `COMET_BFT`). */
  datatype RpcType = UnknownRpc | Grpc | Websocket | JsonRpc | Rest | CometBft

  datatype EndpointConfig = EndpointConfig(key: int, value: string)

  datatype Endpoint = Endpoint(url: string, rpcType: RpcType, configs: seq<EndpointConfig>)

  /** One recipient of a service's rewards and its percentage. */
  datatype RevShare = RevShare(address: string, revSharePercentage: int)

  /** A supplier's configuration of one service, as staked on chain. */
  datatype ServiceConfig = ServiceConfig(serviceId: string, endpoints: seq<Endpoint>, revShare: seq<RevShare>)

  /** A scheduled change of a supplier's services: the service becomes
      active at `activationHeight` and inactive at `deactivationHeight`
      (0 = not scheduled). */
  datatype ServiceConfigUpdate = ServiceConfigUpdate(
    service: Option<ServiceConfig>,
    activationHeight: int,
    deactivationHeight: int)

  /** The supplier record the chain returns for an operator address.
      `stake` is the staked amount in uPOKT, absent when the chain sends
      no stake coin. */
  datatype Supplier = Supplier(
    operatorAddress: string,
    ownerAddress: string,
    stake: Option<nat>,
    unstakeSessionEndHeight: int,
    services: seq<ServiceConfig>,
    serviceConfigHistory: seq<ServiceConfigUpdate>)

  /** A supplier has been configured once it shows services or pending
      service changes. */
  predicate Configured(s: Supplier)
  {
    |s.services| > 0 || |s.serviceConfigHistory| > 0
  }

  datatype Region = Region(displayName: string, urlValue: string)

  datatype RelayMiner = RelayMiner(identity: string, domain: string, region: Option<Region>)

  /** A revenue-share rule configured on an address group's service. */
  datatype RevShareRule = RevShareRule(address: string, share: int)

  /** A service offered by an address group, with its share rules and the
      endpoints of the service definition. */
  datatype AddressGroupService = AddressGroupService(
    serviceId: string,
    addSupplierShare: bool,
    supplierShare: Option<int>,
    revShare: seq<RevShareRule>,
    endpoints: seq<Endpoint>)

  datatype AddressGroup = AddressGroup(
    id: int,
    name: string,
    isPrivate: bool,
    linkedAddresses: seq<string>,
    relayMiner: Option<RelayMiner>,
    addressGroupServices: seq<AddressGroupService>)

  /** A stored operator key together with its address group. Addresses
      that the schema allows to be null are modelled as strings where the
      empty string stands for "not set" (both are falsy in the source). */
  datatype Key = Key(
    address: string,
    privateKey: string,
    state: KeyState,
    ownerAddress: string,
    delegatorRewardsAddress: string,
    delegatorRevSharePercentage: Option<int>,
    deliveredAt: Option<int>,
    remediationHistory: Option<seq<RemediationEntry>>,
    addressGroup: Option<AddressGroup>,
    lastUpdatedHeight: int,
    balanceUpokt: int,
    stakeOwner: string,
    stakeAmountUpokt: int,
    services: seq<ServiceConfig>)

  /** Application settings the reconciliation reads; 0 means "not set". */
  datatype Settings = Settings(minimumStake: nat, minimumOperationalFunds: nat)

  /** A partial key row (`Partial<InsertKey>`): absent fields are left as
      they are when the update is applied. */
  datatype KeyUpdate = KeyUpdate(
    lastUpdatedHeight: int,
    balanceUpokt: int,
    state: Option<KeyState>,
    stakeOwner: Option<string>,
    stakeAmountUpokt: Option<int>,
    services: Option<seq<ServiceConfig>>,
    ownerAddress: Option<string>,
    remediationHistory: Option<seq<RemediationEntry>>)

  /** The key row after writing `u` over it: every column the update
      carries is written, every other column keeps its stored value. */
  function ApplyUpdate(k: Key, u: KeyUpdate): (r: Key)
    // columns the update always carries
    ensures r.lastUpdatedHeight == u.lastUpdatedHeight && r.balanceUpokt == u.balanceUpokt
    // columns the update may carry
    ensures u.state.Some? ==> r.state == u.state.value
    ensures u.state.None? ==> r.state == k.state
    ensures u.stakeOwner.Some? ==> r.stakeOwner == u.stakeOwner.value
    ensures u.stakeOwner.None? ==> r.stakeOwner == k.stakeOwner
    ensures u.stakeAmountUpokt.Some? ==> r.stakeAmountUpokt == u.stakeAmountUpokt.value
    ensures u.stakeAmountUpokt.None? ==> r.stakeAmountUpokt == k.stakeAmountUpokt
    ensures u.services.Some? ==> r.services == u.services.value
    ensures u.services.None? ==> r.services == k.services
    ensures u.ownerAddress.Some? ==> r.ownerAddress == u.ownerAddress.value
    ensures u.ownerAddress.None? ==> r.ownerAddress == k.ownerAddress
    ensures u.remediationHistory.Some? ==> r.remediationHistory == u.remediationHistory
    ensures u.remediationHistory.None? ==> r.remediationHistory == k.remediationHistory
    // columns no update carries
    ensures r.address == k.address && r.privateKey == k.privateKey
    ensures r.delegatorRewardsAddress == k.delegatorRewardsAddress
            && r.delegatorRevSharePercentage == k.delegatorRevSharePercentage
    ensures r.deliveredAt == k.deliveredAt && r.addressGroup == k.addressGroup
  {
    k.(lastUpdatedHeight := u.lastUpdatedHeight,
       balanceUpokt := u.balanceUpokt,
       state := if u.state.Some? then u.state.value else k.state,
       stakeOwner := if u.stakeOwner.Some? then u.stakeOwner.value else k.stakeOwner,
       stakeAmountUpokt := if u.stakeAmountUpokt.Some? then u.stakeAmountUpokt.value else k.stakeAmountUpokt,
       services := if u.services.Some? then u.services.value else k.services,
       ownerAddress := if u.ownerAddress.Some? then u.ownerAddress.value else k.ownerAddress,
       remediationHistory := if u.remediationHistory.Some? then u.remediationHistory else k.remediationHistory)
  }

  /** Writing the same update twice leaves the row as writing it once. */
  lemma ApplyUpdateIdempotent(k: Key, u: KeyUpdate)
    ensures ApplyUpdate(ApplyUpdate(k, u), u) == ApplyUpdate(k, u)
  {
  }
}
