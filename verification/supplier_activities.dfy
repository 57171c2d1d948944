/** The provider's two per-key activities: `upsertSupplierStatus`, which
    reconciles a stored key with the supplier record on chain and records
    remediation findings, and `remediateSupplier`, which acts on an
    `OwnerInitialStake` finding by submitting a corrective stake.

    Chain reads (balance, supplier, the re-fetched supplier), the stake
    transaction, the service-config builder and the clock are inputs: plain
    values, or function-typed parameters for the calls whose result depends
    on what the activity passes them. The key table is `KeyStore`, whose
    `UpdateKey` only writes over a row whose stored height is not above the
    update's height. */
module SupplierActivities {
  import opened Common
  import opened Strings
  import opened ProviderModel
  import opened RemediationHistory

  /** A delivered key with no stake for this long becomes `MissingStake`. */
  const DeliveryGraceMs: int := 24 * 60 * 60 * 1000

  /** An `OwnerInitialStake` entry younger than this is not re-recorded. */
  const OwnerInitialStakeCooldownMs: int := 10 * 60 * 1000

  /** The wording of each finding, as stored in the key's history. */
  function MessageText(m: Message): string
  {
    match m
    case OwnerInitialStakeText =>
      "The supplier is not configured with any services."
    case FundsTooLowText(minimum) =>
      "The operational funds for this supplier (used to submit claim and proof transactions) are below the providers desired threshold ("
      + NatToString(minimum) + " uPokt)"
    case StakeTooLowText(minimum) =>
      "The stake for this supplier is below the providers desired threshold (" + NatToString(minimum) + " uPokt)"
    case DelegatorAddressMissingText =>
      "The key does not have a delegator address configured, this will prevent any automatic remediation from happening."
  }

  /** Why `upsertSupplierStatus` stops: the key is unknown (a non-retryable
      `not_found` failure), or the supplier has no stake coin, which the
      source dereferences while logging (a `TypeError`). */
  datatype ActivityError = KeyNotFound | MissingStakeCoin

  datatype Result<T> = Ok(value: T) | Err(error: ActivityError)

  /** The state that the supplier's unbonding information implies. */
  function ChainState(s: Supplier, height: int): KeyState
  {
    if s.unstakeSessionEndHeight == 0 then Staked
    else if height >= s.unstakeSessionEndHeight then Unstaked
    else Unstaking
  }

  /** The stored history, an absent one read as empty. */
  function HistoryOf(k: Key): seq<RemediationEntry>
  {
    if k.remediationHistory.Some? then k.remediationHistory.value else []
  }

  /** An `OwnerInitialStake` entry exists and is younger than the cooldown. */
  predicate InCooldown(h: seq<RemediationEntry>, now: int)
  {
    var existing := FindByReason(h, OwnerInitialStake);
    existing.Some? && now - existing.value.timestamp < OwnerInitialStakeCooldownMs
  }

  /** A staked supplier that was never configured, for a key that can be
      remediated because it has a delegator rewards address. */
  predicate PristineOwnerStake(k: Key, s: Supplier, height: int)
  {
    ChainState(s, height) == Staked && k.delegatorRewardsAddress != ""
    && |s.services| == 0 && |s.serviceConfigHistory| == 0
  }

  predicate FundsTooLow(s: Supplier, height: int, balance: int, settings: Option<Settings>)
  {
    ChainState(s, height) == Staked && balance != 0 && settings.Some?
    && settings.value.minimumOperationalFunds != 0 && balance < settings.value.minimumOperationalFunds
  }

  predicate StakeTooLow(s: Supplier, height: int, settings: Option<Settings>)
  {
    ChainState(s, height) == Staked && s.stake.Some? && settings.Some?
    && settings.value.minimumStake != 0 && s.stake.value < settings.value.minimumStake
  }

  predicate DelegatorMissing(k: Key, s: Supplier, height: int)
  {
    ChainState(s, height) == Staked && k.delegatorRewardsAddress == ""
  }

  function NewEntry(reason: Reason, message: Message, now: int): RemediationEntry
  {
    RemediationEntry(reason, message, now, None, None)
  }

  /** The finding `upsertSupplierStatus` records for a key whose supplier
      is on chain. The checks run in the order owner-initial-stake, funds,
      stake, delegator, and each one that fires replaces what the previous
      one wrote, so the last one that fires wins. */
  function Finding(k: Key, s: Supplier, height: int, balance: int, settings: Option<Settings>, now: int)
    : Option<RemediationEntry>
  {
    if DelegatorMissing(k, s, height) then
      Some(NewEntry(DelegatorAddressMissing, DelegatorAddressMissingText, now))
    else if StakeTooLow(s, height, settings) then
      Some(NewEntry(SupplierStakeTooLow, StakeTooLowText(settings.value.minimumStake), now))
    else if FundsTooLow(s, height, balance, settings) then
      Some(NewEntry(SupplierFundsTooLow, FundsTooLowText(settings.value.minimumOperationalFunds), now))
    else if PristineOwnerStake(k, s, height) && !InCooldown(HistoryOf(k), now) then
      Some(NewEntry(OwnerInitialStake, OwnerInitialStakeText, now))
    else None
  }

  /** The remediation history `upsertSupplierStatus` writes for a key whose
      supplier is on chain (None: the history is left as stored). Each
      check replaces-or-appends its entry into the key's ORIGINAL history,
      so when several checks fire only the last one's entry is kept. */
  method DetectRemediation(k: Key, s: Supplier, state: KeyState, height: int, balance: int,
                           settings: Option<Settings>, now: int)
    returns (history: Option<seq<RemediationEntry>>)
    requires state == ChainState(s, height) && s.stake.Some?
    ensures var f := Finding(k, s, height, balance, settings, now);
            history == if f.Some? then Some(AddOrUpdate(f.value, HistoryOf(k))) else None
  {
    history := None;
    var original := HistoryOf(k);
    var existing := FindByReason(original, OwnerInitialStake);
    var isInCooldown := if existing.Some? then now - existing.value.timestamp < OwnerInitialStakeCooldownMs else false;
    var ownerInitialStakeNeeded := state == Staked && k.delegatorRewardsAddress != ""
                                   && |s.services| == 0 && |s.serviceConfigHistory| == 0;
    if ownerInitialStakeNeeded && !isInCooldown {
      var entry := RemediationEntry(OwnerInitialStake, OwnerInitialStakeText, now, None, None);
      history := Some(AddOrUpdate(entry, original));
    }

    if state == Staked && balance != 0 && settings.Some? && settings.value.minimumOperationalFunds != 0 {
      if balance < settings.value.minimumOperationalFunds {
        var entry := RemediationEntry(SupplierFundsTooLow, FundsTooLowText(settings.value.minimumOperationalFunds), now, None, None);
        history := Some(AddOrUpdate(entry, original));
      }
    }

    if state == Staked && settings.Some? && settings.value.minimumStake != 0 {
      if s.stake.value < settings.value.minimumStake {
        var entry := RemediationEntry(SupplierStakeTooLow, StakeTooLowText(settings.value.minimumStake), now, None, None);
        history := Some(AddOrUpdate(entry, original));
      }
    }

    if state == Staked && k.delegatorRewardsAddress == "" {
      var entry := RemediationEntry(DelegatorAddressMissing, DelegatorAddressMissingText, now, None, None);
      history := Some(AddOrUpdate(entry, original));
    }
  }

  /** What `upsertSupplierStatus` promises of the update it builds for one
      key; `StatusUpdateDetermined` shows it leaves exactly one result. */
  predicate StatusUpdateFor(key: Option<Key>, settings: Option<Settings>, balance: int,
                            supplier: Option<Supplier>, height: int, now: int, r: Result<KeyUpdate>)
  {
    // failures
    && (key.None? ==> r == Err(KeyNotFound))
    && (key.Some? && supplier.Some? && supplier.value.stake.None? ==> r == Err(MissingStakeCoin))
    && (key.Some? && (supplier.None? || supplier.value.stake.Some?) ==> r.Ok?)
    // every branch refreshes the height and the balance and sets the state
    && (r.Ok? ==> r.value.lastUpdatedHeight == height && r.value.balanceUpokt == balance && r.value.state.Some?)
    // no supplier on chain
    && (r.Ok? && supplier.None? ==>
          var k := key.value;
          && r.value.state == Some(
               if k.state == Imported then Available
               else if k.state == Unstaking then Unstaked
               else if k.state == Delivered && k.deliveredAt.Some? && k.deliveredAt.value < now - DeliveryGraceMs then MissingStake
               else k.state)
          && r.value.stakeOwner.None? && r.value.stakeAmountUpokt.None? && r.value.services.None?
          && r.value.ownerAddress.None? && r.value.remediationHistory.None?)
    // supplier on chain: state from the unbonding height, stake fields copied while staked or unstaking
    && (r.Ok? && supplier.Some? ==>
          var k, s, cs := key.value, supplier.value, ChainState(supplier.value, height);
          && (r.value.state == Some(cs) || r.value.state == Some(AttentionNeeded))
          && (cs != Staked ==> r.value.state == Some(cs) && r.value.remediationHistory.None?)
          && (r.value.stakeOwner.Some? <==> cs == Staked || cs == Unstaking)
          && (r.value.stakeOwner.Some? ==>
                && r.value.stakeOwner == Some(s.ownerAddress)
                && r.value.stakeAmountUpokt == Some(s.stake.value)
                && r.value.services == Some(s.services))
          && (r.value.stakeOwner.None? ==> r.value.stakeAmountUpokt.None? && r.value.services.None?)
          && (r.value.ownerAddress.Some? <==> (cs == Staked || cs == Unstaking) && k.state == Imported)
          && (r.value.ownerAddress.Some? ==> r.value.ownerAddress == Some(s.ownerAddress)))
    // which finding is recorded: the last check that fires wins
    && (r.Ok? && supplier.Some? ==>
          var f := Finding(key.value, supplier.value, height, balance, settings, now);
          r.value.remediationHistory == if f.Some? then Some(AddOrUpdate(f.value, HistoryOf(key.value))) else None)
    // the state is forced to AttentionNeeded exactly when the rebuilt history lacks an OwnerInitialStake entry
    && (r.Ok? && supplier.Some? ==>
          (r.value.state == Some(AttentionNeeded) <==>
             r.value.remediationHistory.Some? && |r.value.remediationHistory.value| > 0
             && !HasReason(r.value.remediationHistory.value, OwnerInitialStake)))
    // ... that is, when another finding fires and the stored history holds no OwnerInitialStake entry
    && (r.Ok? && supplier.Some? ==>
          var f := Finding(key.value, supplier.value, height, balance, settings, now);
          (r.value.state == Some(AttentionNeeded) <==>
             f.Some? && f.value.reason != OwnerInitialStake && !HasReason(HistoryOf(key.value), OwnerInitialStake)))
  }

  /** The promise pins the update down: two results that both keep it
      are the same. */
  lemma StatusUpdateDetermined(key: Option<Key>, settings: Option<Settings>, balance: int,
                               supplier: Option<Supplier>, height: int, now: int, r1: Result<KeyUpdate>, r2: Result<KeyUpdate>)
    requires StatusUpdateFor(key, settings, balance, supplier, height, now, r1)
    requires StatusUpdateFor(key, settings, balance, supplier, height, now, r2)
    ensures r1 == r2
  {
    if r1.Ok? && r2.Ok? {
      var u1, u2 := r1.value, r2.value;
      assert u1.state == u2.state;
      assert u1 == u2;
    }
  }

  /** The update `upsertSupplierStatus` writes for one key, built field by
      field as in the source. */
  method BuildStatusUpdate(key: Option<Key>, settings: Option<Settings>, balance: int,
                           supplier: Option<Supplier>, height: int, now: int)
    returns (r: Result<KeyUpdate>)
    ensures StatusUpdateFor(key, settings, balance, supplier, height, now, r)
  {
    if key.None? {
      return Err(KeyNotFound);
    }
    var k := key.value;
    var update := KeyUpdate(height, balance, None, None, None, None, None, None);

    if supplier.None? {
      match k.state {
        case Imported =>
          update := update.(state := Some(Available));
        case Unstaking =>
          update := update.(state := Some(Unstaked));
        case Delivered =>
          update := update.(state := Some(
            if k.deliveredAt.Some? && k.deliveredAt.value < now - DeliveryGraceMs then MissingStake else k.state));
        case _ =>
          update := update.(state := Some(k.state));
      }
      return Ok(update);
    }

    var s := supplier.value;
    var state: KeyState;
    if s.unstakeSessionEndHeight == 0 {
      state := Staked;
    } else if height >= s.unstakeSessionEndHeight {
      state := Unstaked;
    } else {
      state := Unstaking;
    }
    update := update.(state := Some(state));

    if state == Unstaking || state == Staked {
      update := update.(stakeOwner := Some(s.ownerAddress),
                        stakeAmountUpokt := Some(if s.stake.Some? then s.stake.value else 0),
                        services := Some(s.services));
      if k.state == Imported {
        update := update.(ownerAddress := Some(s.ownerAddress));
      }
    }

    // The source dereferences `supplier.stake.amount` (for a log line) before
    // its stake check; no check in between has an effect, so failing here is
    // the same observable outcome.
    if s.stake.None? {
      return Err(MissingStakeCoin);
    }

    var history := DetectRemediation(k, s, state, height, balance, settings, now);
    update := update.(remediationHistory := history);
    if history.Some? {
      AddOrUpdateHasReason(Finding(k, s, height, balance, settings, now).value, HistoryOf(k), OwnerInitialStake);
    }

    if update.remediationHistory.Some? && |update.remediationHistory.value| > 0
       && !HasReason(update.remediationHistory.value, OwnerInitialStake) {
      update := update.(state := Some(AttentionNeeded));
    }
    return Ok(update);
  }

  /** While the stored OwnerInitialStake entry is in its cooldown, the
      reconciliation leaves that entry as it is: whatever history it
      writes finds the same OwnerInitialStake entry. */
  lemma CooldownKeepsOwnerInitialStakeEntry(k: Key, s: Supplier, height: int, balance: int,
                                            settings: Option<Settings>, now: int)
    requires UniqueReasons(HistoryOf(k)) && InCooldown(HistoryOf(k), now)
    ensures var f := Finding(k, s, height, balance, settings, now);
            f.Some? ==> FindByReason(AddOrUpdate(f.value, HistoryOf(k)), OwnerInitialStake)
                        == FindByReason(HistoryOf(k), OwnerInitialStake)
  {
    var f := Finding(k, s, height, balance, settings, now);
    if f.Some? {
      AddOrUpdateKeepsOtherFinds(f.value, HistoryOf(k), OwnerInitialStake);
    }
  }

  /** The reconciliation keeps a history at one entry per reason, and the
      entry it records for the finding is the only one with that reason. */
  lemma DetectionKeepsUniqueReasons(k: Key, s: Supplier, height: int, balance: int,
                                    settings: Option<Settings>, now: int)
    requires UniqueReasons(HistoryOf(k))
    ensures var f := Finding(k, s, height, balance, settings, now);
            f.Some? ==> UniqueReasons(AddOrUpdate(f.value, HistoryOf(k)))
                        && FindByReason(AddOrUpdate(f.value, HistoryOf(k)), f.value.reason) == f
  {
    var f := Finding(k, s, height, balance, settings, now);
    if f.Some? {
      var h := HistoryOf(k);
      AddOrUpdateKeepsUnique(f.value, h);
      AddOrUpdateHasReason(f.value, h, f.value.reason);
    }
  }

  /** The parameters of the corrective stake transaction. */
  datatype StakeSupplierParams = StakeSupplierParams(
    signerPrivateKey: string,
    signer: string,
    ownerAddress: string,
    operatorAddress: string,
    services: seq<ServiceConfig>)

  /** What the chain client reports for a submitted transaction. */
  datatype TxResult = TxResult(success: bool, code: int, message: string)

  /** What `remediateSupplier` decides: its result, the transaction it
      submits (if any) with the chain's answer, and the key update to write. */
  datatype RemediationOutcome = RemediationOutcome(
    success: bool,
    message: string,
    submitted: Option<StakeSupplierParams>,
    stakeTxResult: Option<TxResult>,
    write: Option<KeyUpdate>)

  function Outcome(success: bool, message: string): RemediationOutcome
  {
    RemediationOutcome(success, message, None, None, None)
  }

  /** The OwnerInitialStake entry after a stake attempt: stamped with the
      time and the transaction's code and message. */
  function Attempted(entry: RemediationEntry, tx: TxResult, now: int): RemediationEntry
  {
    entry.(timestamp := now, txResult := Some(tx.code), txResultDetails := Some(tx.message))
  }

  /** The decision of `remediateSupplier` for one key. `buildServices`
      stands for the service-config builder (given the address group, the
      owner, the operator and the delegator's revenue share, over the
      supported services) and `stakeSupplier` for the chain's stake
      transaction; `supplierAfter` is the supplier re-read after a
      successful stake (None when the read fails or finds nothing). */
  function DecideRemediation(key: Option<Key>, supplier: Option<Supplier>, reasons: seq<Reason>,
                           balance: int, height: int, now: int,
                           buildServices: (AddressGroup, string, string, RevShare) -> seq<ServiceConfig>,
                           stakeSupplier: StakeSupplierParams -> TxResult,
                           supplierAfter: Option<Supplier>): (o: RemediationOutcome)
    // guards that fail: nothing submitted, nothing written
    ensures key.None? ==> o == Outcome(false, "Key not found")
    ensures key.Some? && key.value.addressGroup.None? ==> o == Outcome(false, "Key address group not found")
    ensures key.Some? && key.value.addressGroup.Some? && supplier.None? ==> o == Outcome(false, "Supplier not found")
    // guards that succeed without acting
    ensures key.Some? && key.value.addressGroup.Some? && supplier.Some? && key.value.remediationHistory == Some([])
            ==> o == Outcome(true, "No remediation history found.")
    ensures key.Some? && key.value.addressGroup.Some? && supplier.Some? && key.value.remediationHistory != Some([])
            && (OwnerInitialStake !in reasons || !HasReason(HistoryOf(key.value), OwnerInitialStake))
            ==> o == Outcome(true, "No actionable remediation for this supplier.")
    // nothing is ever submitted or written without an actionable OwnerInitialStake entry
    ensures o.submitted.Some? || o.write.Some? ==>
              key.Some? && key.value.addressGroup.Some? && supplier.Some?
              && OwnerInitialStake in reasons && HasReason(HistoryOf(key.value), OwnerInitialStake)
    // an already configured supplier: only the OwnerInitialStake entry is dropped, nothing is staked
    ensures o.write.Some? && o.submitted.None? ==> supplier.Some? && Configured(supplier.value)
    ensures o.write.Some? && supplier.Some? && Configured(supplier.value) ==>
              && o == RemediationOutcome(true, "Supplier already configured; remediation cleared.", None, None, o.write)
              && o.write.value == KeyUpdate(height, balance, None, None, None, None, None,
                                            Some(WithoutReason(HistoryOf(key.value), OwnerInitialStake)))
    // an empty service configuration is never staked
    ensures o.submitted.Some? ==> |o.submitted.value.services| > 0
    ensures o.submitted.None? && o.write.None? && key.Some? && key.value.addressGroup.Some? && supplier.Some?
            && OwnerInitialStake in reasons && HasReason(HistoryOf(key.value), OwnerInitialStake) && key.value.remediationHistory != Some([])
            ==> !Configured(supplier.value) && o == Outcome(false, "Refusing to stake with empty services config.")
    // the stake: of the unconfigured supplier, with the services built for the key's group and share
    ensures o.submitted.Some? && key.Some? && key.value.addressGroup.Some? && supplier.Some?
            && FindByReason(HistoryOf(key.value), OwnerInitialStake).Some? ==>
              var k, s := key.value, supplier.value;
              && !Configured(s)
              && o == StakeRemediation(k, s, FindByReason(HistoryOf(k), OwnerInitialStake).value,
                                       buildServices(k.addressGroup.value, s.ownerAddress, k.address, DelegatorShare(k)),
                                       balance, height, now, stakeSupplier, supplierAfter)
  {
    if key.None? then Outcome(false, "Key not found")
    else if key.value.addressGroup.None? then Outcome(false, "Key address group not found")
    else if supplier.None? then Outcome(false, "Supplier not found")
    else if key.value.remediationHistory == Some([]) then Outcome(true, "No remediation history found.")
    else
      var k, s := key.value, supplier.value;
      var remediationHistory := HistoryOf(k);
      var ownerInitialStakeEntry := if OwnerInitialStake in reasons then FindByReason(remediationHistory, OwnerInitialStake) else None;
      if ownerInitialStakeEntry.None? then Outcome(true, "No actionable remediation for this supplier.")
      else if Configured(s) then
        var update := KeyUpdate(height, balance, None, None, None, None, None,
                                Some(WithoutReason(remediationHistory, OwnerInitialStake)));
        RemediationOutcome(true, "Supplier already configured; remediation cleared.", None, None, Some(update))
      else
        var services := buildServices(k.addressGroup.value, s.ownerAddress, k.address, DelegatorShare(k));
        if |services| == 0 then Outcome(false, "Refusing to stake with empty services config.")
        else StakeRemediation(k, s, ownerInitialStakeEntry.value, services, balance, height, now, stakeSupplier, supplierAfter)
  }

  /** The delegator's revenue share a key records, 0 when it has none. */
  function DelegatorShare(k: Key): RevShare
  {
    RevShare(k.delegatorRewardsAddress,
             if k.delegatorRevSharePercentage.Some? then k.delegatorRevSharePercentage.value else 0)
  }

  /** The corrective stake of `remediateSupplier`: signed by the key, for
      the key as operator and the supplier's owner, and its outcome
      recorded on the key. A failed transaction, or a supplier that still
      shows no services afterwards, records the attempt in the
      OwnerInitialStake entry; otherwise the entry is dropped. */
  function StakeRemediation(k: Key, s: Supplier, entry: RemediationEntry, services: seq<ServiceConfig>,
                            balance: int, height: int, now: int,
                            stakeSupplier: StakeSupplierParams -> TxResult, supplierAfter: Option<Supplier>)
    : (o: RemediationOutcome)
    ensures var tx := stakeSupplier(StakeSupplierParams(k.privateKey, k.address, s.ownerAddress, k.address, services));
            && o.submitted == Some(StakeSupplierParams(k.privateKey, k.address, s.ownerAddress, k.address, services))
            && o.stakeTxResult == Some(tx)
            && o.success == tx.success
            && o.message == (if tx.success then "Remediation completed successfully." else "Remediation transaction failed.")
            && o.write.Some? && o.write.value.lastUpdatedHeight == height && o.write.value.balanceUpokt == balance
            && o.write.value.state == Some(if tx.success then Staked else RemediationFailed)
            && o.write.value.stakeOwner.None? && o.write.value.stakeAmountUpokt.None?
            && o.write.value.services.None? && o.write.value.ownerAddress.None?
            && o.write.value.remediationHistory ==
                 Some(if tx.success && supplierAfter.Some? && Configured(supplierAfter.value)
                      then WithoutReason(HistoryOf(k), OwnerInitialStake)
                      else AddOrUpdate(Attempted(entry, tx, now), HistoryOf(k)))
  {
    var stakeParams := StakeSupplierParams(k.privateKey, k.address, s.ownerAddress, k.address, services);
    var txResult := stakeSupplier(stakeParams);
    // the supplier is re-read only after a successful stake
    var nowConfigured := txResult.success && supplierAfter.Some? && Configured(supplierAfter.value);
    var history := if nowConfigured then WithoutReason(HistoryOf(k), OwnerInitialStake)
                   else AddOrUpdate(Attempted(entry, txResult, now), HistoryOf(k));
    var update := KeyUpdate(height, balance, Some(if txResult.success then Staked else RemediationFailed),
                            None, None, None, None, Some(history));
    RemediationOutcome(txResult.success,
                       if txResult.success then "Remediation completed successfully." else "Remediation transaction failed.",
                       Some(stakeParams), Some(txResult), Some(update))
  }

  /** A recorded stake attempt replaces the OwnerInitialStake entry in
      place: the history keeps its length and every other finding, and the
      entry found for OwnerInitialStake is the attempted one. */
  lemma AttemptReplacesEntry(h: seq<RemediationEntry>, tx: TxResult, now: int)
    requires UniqueReasons(h) && HasReason(h, OwnerInitialStake)
    ensures var r := AddOrUpdate(Attempted(FindByReason(h, OwnerInitialStake).value, tx, now), h);
            && |r| == |h|
            && UniqueReasons(r)
            && FindByReason(r, OwnerInitialStake) == Some(Attempted(FindByReason(h, OwnerInitialStake).value, tx, now))
            && (forall e :: e in h && e.reason != OwnerInitialStake ==> e in r)
  {
    var entry := Attempted(FindByReason(h, OwnerInitialStake).value, tx, now);
    AddOrUpdateKeepsUnique(entry, h);
    AddOrUpdateContents(entry, h);
    AddOrUpdateHasReason(entry, h, OwnerInitialStake);
  }

  /** The provider's key table, keyed by address. Writes go through
      `UpdateKey`, which only lands on a row whose stored height is not
      above the update's height. */
  class KeyStore {
    var rows: map<string, Key>

    /** Every row is stored under its own address and keeps at most one
        remediation entry per reason. */
    ghost predicate Valid()
      reads this
    {
      forall a :: a in rows ==> rows[a].address == a && UniqueReasons(HistoryOf(rows[a]))
    }

    constructor(initial: map<string, Key>)
      ensures rows == initial
    {
      rows := initial;
    }

    /** `loadKey`: the row for `address`, if any. */
    function LoadKey(address: string): (k: Option<Key>)
      reads this
      ensures k.Some? <==> address in rows
      ensures k.Some? ==> k.value == rows[address] && (Valid() ==> k.value.address == address)
    {
      if address in rows then Some(rows[address]) else None
    }

    /** `updateKey`: writes `u` over the row unless the stored height is
        above `height`; any other row is untouched. */
    method UpdateKey(address: string, u: KeyUpdate, height: int) returns (applied: bool)
      requires Valid()
      requires u.remediationHistory.Some? ==> UniqueReasons(u.remediationHistory.value)
      modifies this
      ensures Valid()
      ensures applied <==> address in old(rows) && old(rows)[address].lastUpdatedHeight <= height
      ensures applied ==> rows == old(rows)[address := ApplyUpdate(old(rows)[address], u)]
      ensures !applied ==> rows == old(rows)
      ensures u.lastUpdatedHeight == height ==>
                forall a :: a in rows ==> a in old(rows) && rows[a].lastUpdatedHeight >= old(rows)[a].lastUpdatedHeight
    {
      applied := address in rows && rows[address].lastUpdatedHeight <= height;
      if applied {
        rows := rows[address := ApplyUpdate(rows[address], u)];
      }
    }
  }

  /** `upsertSupplierStatus`: load the key, build its update and write it.
      On failure nothing is written. */
  method UpsertSupplierStatus(store: KeyStore, address: string, settings: Option<Settings>, balance: int,
                              supplier: Option<Supplier>, height: int, now: int)
    returns (r: Result<KeyUpdate>)
    requires store.Valid()
    modifies store
    ensures store.Valid()
    // the update written is the one built for the stored key
    ensures StatusUpdateFor(if address in old(store.rows) then Some(old(store.rows)[address]) else None,
                            settings, balance, supplier, height, now, r)
    ensures r == Err(KeyNotFound) <==> address !in old(store.rows)
    ensures r.Err? ==> store.rows == old(store.rows)
    ensures r.Ok? ==> r.value.lastUpdatedHeight == height
    ensures r.Ok? ==> store.rows == (if old(store.rows)[address].lastUpdatedHeight <= height
                                     then old(store.rows)[address := ApplyUpdate(old(store.rows)[address], r.value)]
                                     else old(store.rows))
  {
    var key := store.LoadKey(address);
    r := BuildStatusUpdate(key, settings, balance, supplier, height, now);
    if r.Ok? {
      if supplier.Some? {
        DetectionKeepsUniqueReasons(key.value, supplier.value, height, balance, settings, now);
      }
      var _ := store.UpdateKey(address, r.value, height);
    }
  }

  /** `remediateSupplier`: decide, then write the decided update. A write
      the database rejects (`writeFails`) turns the outcome into a failure
      that reports the update it could not write. */
  method RemediateSupplier(store: KeyStore, address: string, supplier: Option<Supplier>, reasons: seq<Reason>,
                           balance: int, height: int, now: int,
                           buildServices: (AddressGroup, string, string, RevShare) -> seq<ServiceConfig>,
                           stakeSupplier: StakeSupplierParams -> TxResult,
                           supplierAfter: Option<Supplier>, writeFails: bool)
    returns (o: RemediationOutcome)
    requires store.Valid()
    modifies store
    ensures store.Valid()
    // the outcome is the decision for the stored key, turned into a failure when its write is rejected
    ensures var d := DecideRemediation(if address in old(store.rows) then Some(old(store.rows)[address]) else None,
                                       supplier, reasons, balance, height, now, buildServices, stakeSupplier, supplierAfter);
            o == (if writeFails && d.write.Some? then d.(success := false, message := "Failed while updating the supplier status.") else d)
    ensures address !in old(store.rows) ==> o == Outcome(false, "Key not found") && store.rows == old(store.rows)
    ensures o.write.None? || writeFails ==> store.rows == old(store.rows)
    ensures writeFails && o.write.Some? ==> !o.success && o.message == "Failed while updating the supplier status."
    ensures !writeFails && o.write.Some? ==>
              store.rows == (if old(store.rows)[address].lastUpdatedHeight <= height
                             then old(store.rows)[address := ApplyUpdate(old(store.rows)[address], o.write.value)]
                             else old(store.rows))
  {
    var key := store.LoadKey(address);
    o := DecideRemediation(key, supplier, reasons, balance, height, now, buildServices, stakeSupplier, supplierAfter);
    if o.write.Some? {
      if writeFails {
        return o.(success := false, message := "Failed while updating the supplier status.");
      }
      var k := key.value;
      assert UniqueReasons(HistoryOf(k));
      if o.submitted.Some? {
        if o.stakeTxResult.value.success && supplierAfter.Some? && Configured(supplierAfter.value) {
        } else {
          AttemptReplacesEntry(HistoryOf(k), o.stakeTxResult.value, now);
        }
      }
      var _ := store.UpdateKey(address, o.write.value, height);
    }
  }
}
