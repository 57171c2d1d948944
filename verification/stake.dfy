/** The demand side's stake offers: for each enabled provider, the address
    groups an owner may stake into and a greedy split of the requested
    stake into node sizes; the record of a new stake transaction; and the
    canonical form of the signed memo. */
module StakeOffers {
  import opened Common
  import opened Strings
  import TransactionWorkflow

  datatype FeeType = Fixed | UpTo

  /** One node size and how many nodes of it. */
  datatype StakeItem = StakeItem(amount: int, qty: int)

  /** A provider's address group as the offer lists it. */
  datatype OfferGroup = OfferGroup(id: int, isPrivate: bool, linkedAddresses: seq<string>)

  /** A provider as listed; absent lists are empty, `0` stands for an unset amount. */
  datatype Provider = Provider(
    id: int,
    identity: string,
    name: string,
    enabled: bool,
    fee: Option<int>,
    feeType: Option<FeeType>,
    regions: seq<string>,
    operationalFunds: int,
    minimumStake: int,
    allowPublicStaking: bool,
    allowedStakers: seq<string>,
    status: string,
    addressGroups: seq<OfferGroup>)

  datatype Offer = Offer(
    id: int,
    identity: string,
    name: string,
    fee: Option<int>,
    feeType: FeeType,
    regions: seq<string>,
    operationalFundsAmount: int,
    status: string,
    stakeDistribution: seq<StakeItem>,
    addressGroups: seq<OfferGroup>)

  // ---------------------------------------------------------------------
  // Eligibility

  /** Some entry equals the owner, ignoring case. */
  predicate ListsOwner(addresses: seq<string>, owner: string)
  {
    exists i :: 0 <= i < |addresses| && EqualsIgnoreCase(addresses[i], owner)
  }

  /** A public group that is open to everyone or links the owner. */
  predicate Eligible(g: OfferGroup, owner: string)
  {
    !g.isPrivate && (|g.linkedAddresses| == 0 || ListsOwner(g.linkedAddresses, owner))
  }

  function EligibleGroups(groups: seq<OfferGroup>, owner: string): (r: seq<OfferGroup>)
    ensures forall g :: g in r <==> g in groups && Eligible(g, owner)
  {
    if |groups| == 0 then []
    else
      assert forall g :: g in groups <==> g == groups[0] || g in groups[1..];
      (if Eligible(groups[0], owner) then [groups[0]] else []) + EligibleGroups(groups[1..], owner)
  }

  /** The owner may stake with the provider: it is open to the public or
      lists the owner among its allowed stakers. */
  predicate OwnerAllowed(p: Provider, owner: string)
  {
    p.allowPublicStaking || ListsOwner(p.allowedStakers, owner)
  }

  // ---------------------------------------------------------------------
  // The greedy distribution

  /** The state of the greedy fold: the items so far, the amount still to
      place, and whether that amount has become undefined (a size of 0
      divides by zero and leaves `NaN`). */
  datatype Greedy = Greedy(items: seq<StakeItem>, remaining: int, undefined: bool)

  /** One step of the fold for a node size. */
  function GreedyStep(g: Greedy, size: int): (h: Greedy)
    // the amount becomes undefined only by dividing a positive remainder by 0
    ensures h.undefined <==> g.undefined || (g.remaining > 0 && size == 0)
    // the items only grow, by at most one item of this size
    ensures g.items <= h.items && |h.items| <= |g.items| + 1
    ensures |h.items| == |g.items| + 1 ==> size > 0 && h.items[|g.items|] == StakeItem(size, g.remaining / size)
    // once nothing is left to place, or undefined, a step changes nothing
    ensures g.undefined || g.remaining <= 0 ==> h == g
  {
    if g.undefined || g.remaining <= 0 then g
    else if size == 0 then g.(undefined := true)
    else if size < 0 then g   // the quotient is negative, so no item
    else
      var qty := g.remaining / size;
      if qty > 0 then Greedy(g.items + [StakeItem(size, qty)], g.remaining - qty * size, false) else g
  }

  function GreedyFold(sizes: seq<int>, g: Greedy): Greedy
  {
    if |sizes| == 0 then g else GreedyFold(sizes[1..], GreedyStep(g, sizes[0]))
  }

  /** The distribution of `amount` over the sizes: the greedy items, or
      nothing when an amount is left over. */
  function Distribution(sizes: seq<int>, amount: int): seq<StakeItem>
  {
    var g := GreedyFold(sizes, Greedy([], amount, false));
    if g.undefined || g.remaining != 0 then [] else g.items
  }

  /** The staked total of the items. */
  function Total(items: seq<StakeItem>): int
  {
    if |items| == 0 then 0 else Total(items[..|items| - 1]) + items[|items| - 1].amount * items[|items| - 1].qty
  }

  /** Items of positive size and quantity, each from `g` or of a size in `sizes`. */
  predicate ItemsFrom(items: seq<StakeItem>, g: Greedy, sizes: seq<int>)
  {
    forall it :: it in items ==> it.qty > 0 && it.amount > 0 && (it in g.items || it.amount in sizes)
  }

  /** One step places exactly what it takes from `remaining` and adds at
      most an item of the step's size. */
  lemma GreedyStepKeeps(g: Greedy, size: int)
    ensures var h := GreedyStep(g, size);
            && (!h.undefined ==> Total(h.items) + h.remaining == Total(g.items) + g.remaining)
            && (g.remaining >= 0 && !h.undefined ==> h.remaining >= 0)
            && forall it :: it in h.items ==> it in g.items || (it.amount == size && it.qty > 0 && size > 0)
  {
    var h := GreedyStep(g, size);
    if !g.undefined && g.remaining > 0 && size > 0 && g.remaining / size > 0 {
      assert h.items[..|h.items| - 1] == g.items;
    }
  }

  /** The fold places exactly what it takes from `remaining`, and every item
      it adds is a positive number of nodes of a positive size it was given. */
  lemma {:induction false} GreedyFoldKeeps(sizes: seq<int>, g: Greedy)
    requires forall it :: it in g.items ==> it.qty > 0 && it.amount > 0
    ensures var h := GreedyFold(sizes, g);
            && (!h.undefined ==> Total(h.items) + h.remaining == Total(g.items) + g.remaining)
            && (g.remaining >= 0 && !h.undefined ==> h.remaining >= 0)
            && ItemsFrom(h.items, g, sizes)
  {
    if |sizes| > 0 {
      var s := GreedyStep(g, sizes[0]);
      var h := GreedyFold(sizes, g);
      assert h == GreedyFold(sizes[1..], s);
      GreedyStepKeeps(g, sizes[0]);
      GreedyFoldKeeps(sizes[1..], s);
      GreedyUndefinedStays(sizes[1..], s);
      assert ItemsFrom(h.items, g, sizes) by {
        forall it | it in h.items
          ensures it.qty > 0 && it.amount > 0 && (it in g.items || it.amount in sizes)
        {
          assert it in s.items || it.amount in sizes[1..];
        }
      }
    }
  }

  /** Once undefined, the remaining amount stays undefined. */
  lemma {:induction false} GreedyUndefinedStays(sizes: seq<int>, g: Greedy)
    ensures g.undefined ==> GreedyFold(sizes, g).undefined
  {
    if |sizes| > 0 {
      GreedyUndefinedStays(sizes[1..], GreedyStep(g, sizes[0]));
    }
  }

  /** A non-empty distribution stakes exactly the requested amount, in
      positive numbers of nodes of the offered sizes. */
  lemma DistributionIsExact(sizes: seq<int>, amount: int)
    ensures var d := Distribution(sizes, amount);
            && (|d| > 0 ==> Total(d) == amount)
            && forall it :: it in d ==> it.qty > 0 && it.amount > 0 && it.amount in sizes
  {
    GreedyFoldKeeps(sizes, Greedy([], amount, false));
    assert Total([]) == 0;
  }

  /** With the one node size the application offers, the amount is split
      into equal nodes exactly when it is a positive multiple of the size. */
  lemma SingleSizeDistribution(size: int, amount: int)
    ensures Distribution([size], amount) ==
            if size > 0 && amount > 0 && amount % size == 0 then [StakeItem(size, amount / size)] else []
  {
    var g := Greedy([], amount, false);
    assert GreedyFold([size], g) == GreedyFold([], GreedyStep(g, size));
  }

  /** The greedy split as the source runs it: a fold over the sizes that
      lowers `remaining` with every item it pushes. */
  method Distribute(sizes: seq<int>, amount: int) returns (distribution: seq<StakeItem>)
    ensures distribution == Distribution(sizes, amount)
  {
    var acc: seq<StakeItem> := [];
    var remaining := amount;
    var undefined := false;
    var i := 0;
    while i < |sizes|
      invariant 0 <= i <= |sizes|
      invariant GreedyFold(sizes[i..], Greedy(acc, remaining, undefined)) == GreedyFold(sizes, Greedy([], amount, false))
    {
      assert sizes[i..] == [sizes[i]] + sizes[i + 1..];
      var nodeAmount := sizes[i];
      if !undefined && remaining > 0 {
        if nodeAmount == 0 {
          undefined := true;
        } else if nodeAmount > 0 {
          var qty := remaining / nodeAmount;
          if qty > 0 {
            acc := acc + [StakeItem(nodeAmount, qty)];
            remaining := remaining - qty * nodeAmount;
          }
        }
      }
      i := i + 1;
    }
    distribution := acc;
    if undefined || remaining != 0 {
      distribution := [];
    }
  }

  // ---------------------------------------------------------------------
  // Offers

  /** The sizes at or above the provider's minimum. */
  function AllowedSizes(available: seq<int>, minimum: int): (r: seq<int>)
    ensures forall x :: x in r <==> x in available && x >= minimum
  {
    if |available| == 0 then []
    else
      assert forall x :: x in available <==> x == available[0] || x in available[1..];
      (if available[0] >= minimum then [available[0]] else []) + AllowedSizes(available[1..], minimum)
  }

  /** The distribution an offer carries: empty unless the provider has
      operational funds and a minimum stake set and admits the owner. */
  function OfferDistribution(p: Provider, available: seq<int>, amount: int, owner: string): seq<StakeItem>
  {
    if p.operationalFunds != 0 && p.minimumStake != 0 && OwnerAllowed(p, owner)
    then Distribution(AllowedSizes(available, p.minimumStake), amount)
    else []
  }

  /** The offer object of a provider: its columns, the fee type defaulting
      to Fixed, and the distribution and groups computed for it. */
  function MakeOffer(p: Provider, distribution: seq<StakeItem>, groups: seq<OfferGroup>): (o: Offer)
    ensures o.id == p.id && o.identity == p.identity && o.name == p.name && o.fee == p.fee
    ensures p.feeType.Some? ==> o.feeType == p.feeType.value
    ensures p.feeType.None? ==> o.feeType == Fixed
    ensures o.regions == p.regions && o.operationalFundsAmount == p.operationalFunds && o.status == p.status
    ensures o.stakeDistribution == distribution && o.addressGroups == groups
  {
    Offer(p.id, p.identity, p.name, p.fee, if p.feeType.Some? then p.feeType.value else Fixed,
          p.regions, p.operationalFunds, p.status, distribution, groups)
  }

  /** A provider's offer: none when it is disabled or has no eligible group. */
  function OfferOf(p: Provider, available: seq<int>, amount: int, owner: string): (r: seq<Offer>)
    ensures |r| <= 1
    ensures |r| == 1 <==> p.enabled && exists g :: g in p.addressGroups && Eligible(g, owner)
  {
    var groups := EligibleGroups(p.addressGroups, owner);
    assert |groups| > 0 ==> groups[0] in groups;
    if p.enabled && |groups| > 0
    then [MakeOffer(p, OfferDistribution(p, available, amount, owner), groups)]
    else []
  }

  /** The offers, in provider order: one per enabled provider that has an
      eligible group. */
  function Offers(providers: seq<Provider>, available: seq<int>, amount: int, owner: string): (r: seq<Offer>)
    ensures |r| <= |providers|
  {
    if |providers| == 0 then []
    else OfferOf(providers[0], available, amount, owner) + Offers(providers[1..], available, amount, owner)
  }

  /** The offer is one the provider may make: the provider is enabled,
      the offer lists only groups the owner may use (and at least one),
      and a non-empty distribution means the provider is funded, has a
      minimum stake, admits the owner and is offered the exact amount. */
  ghost predicate OfferFrom(o: Offer, p: Provider, amount: int, owner: string)
  {
    && p.enabled && p.id == o.id
    && |o.addressGroups| > 0
    && (forall g :: g in o.addressGroups <==> g in p.addressGroups && Eligible(g, owner))
    && (|o.stakeDistribution| > 0 ==>
          p.operationalFunds != 0 && p.minimumStake != 0 && OwnerAllowed(p, owner)
          && Total(o.stakeDistribution) == amount)
  }

  /** What one provider offers, it may offer. */
  lemma OfferOfSound(p: Provider, available: seq<int>, amount: int, owner: string)
    ensures forall o :: o in OfferOf(p, available, amount, owner) ==> OfferFrom(o, p, amount, owner)
  {
    DistributionIsExact(AllowedSizes(available, p.minimumStake), amount);
  }

  /** Every offer is one that some listed provider may make. */
  lemma {:induction false} OffersAreSound(providers: seq<Provider>, available: seq<int>, amount: int, owner: string)
    ensures forall o :: o in Offers(providers, available, amount, owner) ==>
              exists p :: p in providers && OfferFrom(o, p, amount, owner)
  {
    if |providers| > 0 {
      var p := providers[0];
      var rest := providers[1..];
      OffersAreSound(rest, available, amount, owner);
      OfferOfSound(p, available, amount, owner);
      assert forall q :: q in rest ==> q in providers;
      assert Offers(providers, available, amount, owner) == OfferOf(p, available, amount, owner) + Offers(rest, available, amount, owner);
    }
  }

  /** `CalculateStakeDistribution`: the offers for the listed providers,
      with the application's minimum stake as the one node size. */
  method CalculateStakeDistribution(providers: seq<Provider>, applicationMinimumStake: int, stakeAmount: int, ownerAddress: string)
    returns (offers: seq<Offer>)
    ensures offers == Offers(providers, [applicationMinimumStake], stakeAmount, ownerAddress)
  {
    var available := [applicationMinimumStake];
    offers := [];
    var i := 0;
    while i < |providers|
      invariant 0 <= i <= |providers|
      invariant offers + Offers(providers[i..], available, stakeAmount, ownerAddress) == Offers(providers, available, stakeAmount, ownerAddress)
    {
      var offer := ProviderOffer(providers[i], available, stakeAmount, ownerAddress);
      OffersStep(providers, i, providers[i..], providers[i + 1..], offers, offer, available, stakeAmount, ownerAddress);
      offers := offers + offer;
      i := i + 1;
    }
    assert offers + [] == offers;
  }

  /** Moving the offer of provider `i` from the remaining providers to the offers made so far. */
  lemma OffersStep(providers: seq<Provider>, i: nat, here: seq<Provider>, later: seq<Provider>, offers: seq<Offer>, offer: seq<Offer>,
                   available: seq<int>, amount: int, owner: string)
    requires i < |providers| && here == providers[i..] && later == providers[i + 1..]
    requires offer == OfferOf(providers[i], available, amount, owner)
    ensures (offers + offer) + Offers(later, available, amount, owner) == offers + Offers(here, available, amount, owner)
  {
    assert here[0] == providers[i] && here[1..] == later;
  }

  /** The body of the source's `map` for one provider, with the filter
      before it and the null filter after it: no offer, or one. */
  method ProviderOffer(provider: Provider, available: seq<int>, stakeAmount: int, ownerAddress: string)
    returns (offer: seq<Offer>)
    ensures offer == OfferOf(provider, available, stakeAmount, ownerAddress)
  {
    offer := [];
    if provider.enabled {
      var groups := EligibleGroups(provider.addressGroups, ownerAddress);
      if |groups| > 0 {
        var distribution: seq<StakeItem> := [];
        if provider.operationalFunds != 0 && provider.minimumStake != 0 && OwnerAllowed(provider, ownerAddress) {
          distribution := Distribute(AllowedSizes(available, provider.minimumStake), stakeAmount);
        }
        offer := [MakeOffer(provider, distribution, groups)];
      }
    }
  }

  // ---------------------------------------------------------------------
  // A new stake transaction

  /** The signed transaction the owner's wallet produced. */
  datatype SignedTransaction = SignedTransaction(address: string, signedPayload: string, unsignedPayload: string, estimatedFee: int)

  /** The row `CreateStakeTransaction` inserts. */
  datatype NewTransaction = NewTransaction(
    txType: TransactionWorkflow.TxType,
    status: TransactionWorkflow.TxStatus,
    signedPayload: string,
    fromAddress: string,
    unsignedPayload: string,
    providerFee: int,
    providerId: string,
    estimatedFee: int,
    consumedFee: int,
    typeProviderFee: FeeType,
    createdBy: string)

  /** `Number(fee)` for a fee column that may be null: the integer itself,
      and 0 for null. */
  function FeeNumber(fee: Option<int>): (n: int)
    ensures fee.Some? ==> n == fee.value
    ensures fee.None? ==> n == 0
  {
    if fee.Some? then fee.value else 0
  }

  /** `CreateStakeTransaction`: a pending stake transaction with nothing
      consumed yet, carrying the wallet's payloads and estimate, the
      offer's provider, fee and fee type, and the creating user. */
  function CreateStakeTransaction(offer: Offer, tx: SignedTransaction, userIdentity: string): (r: NewTransaction)
    ensures r.txType == TransactionWorkflow.Stake && r.status == TransactionWorkflow.Pending && r.consumedFee == 0
    ensures r.signedPayload == tx.signedPayload && r.unsignedPayload == tx.unsignedPayload && r.fromAddress == tx.address
    ensures r.estimatedFee == tx.estimatedFee && r.createdBy == userIdentity
    ensures r.providerId == offer.identity && r.typeProviderFee == offer.feeType
    // a provider without a fee is stored with fee 0
    ensures offer.fee.Some? ==> r.providerFee == offer.fee.value
    ensures offer.fee.None? ==> r.providerFee == 0
  {
    NewTransaction(TransactionWorkflow.Stake, TransactionWorkflow.Pending, tx.signedPayload, tx.address, tx.unsignedPayload,
                   FeeNumber(offer.fee), offer.identity, tx.estimatedFee, 0, offer.feeType, userIdentity)
  }

  // ---------------------------------------------------------------------
  // The signed memo's canonical payload

  datatype Entry = Entry(key: string, value: string)

  /** How the default array sort sees an entry: key and value joined by a comma. */
  function EntryText(e: Entry): string
  {
    e.key + "," + e.value
  }

  predicate SortedEntries(es: seq<Entry>)
  {
    forall i, j :: 0 <= i < j < |es| ==> EntryLe(es[i], es[j])
  }

  /** The entry order of the default sort. */
  predicate EntryLe(x: Entry, y: Entry)
  {
    LexLe(EntryText(x), EntryText(y))
  }

  function InsertEntry(e: Entry, sorted: seq<Entry>): (r: seq<Entry>)
    ensures multiset(r) == multiset(sorted) + multiset{e}
  {
    if |sorted| == 0 then [e]
    else if EntryLe(e, sorted[0]) then [e] + sorted
    else
      assert sorted == [sorted[0]] + sorted[1..];
      [sorted[0]] + InsertEntry(e, sorted[1..])
  }

  lemma {:induction false} InsertEntrySorted(e: Entry, sorted: seq<Entry>)
    requires SortedEntries(sorted)
    ensures SortedEntries(InsertEntry(e, sorted))
  {
    if |sorted| == 0 {
    } else if EntryLe(e, sorted[0]) {
      forall j | 0 <= j < |sorted| ensures EntryLe(e, sorted[j]) {
        if j > 0 { LexLeTransitive(EntryText(e), EntryText(sorted[0]), EntryText(sorted[j])); }
      }
    } else {
      LexLeTotal(EntryText(e), EntryText(sorted[0]));
      var head, tail := sorted[0], sorted[1..];
      var rest := InsertEntry(e, tail);
      SortedTail(sorted, head, tail);
      InsertEntrySorted(e, tail);
      HeadBelowInsert(head, tail, e, rest);
      ConsSorted(head, rest);
    }
  }

  /** The tail of a sorted sequence is sorted and bounded below by its head. */
  lemma SortedTail(sorted: seq<Entry>, head: Entry, tail: seq<Entry>)
    requires SortedEntries(sorted) && |sorted| > 0 && head == sorted[0] && tail == sorted[1..]
    ensures SortedEntries(tail) && forall x :: x in tail ==> EntryLe(head, x)
  {
    forall x | x in tail ensures EntryLe(head, x) {
      var j :| 0 <= j < |tail| && tail[j] == x;
      assert sorted[j + 1] == x;
    }
  }

  /** A lower bound of the tail and of the inserted entry bounds the result. */
  lemma HeadBelowInsert(head: Entry, tail: seq<Entry>, e: Entry, rest: seq<Entry>)
    requires forall x :: x in tail ==> EntryLe(head, x)
    requires EntryLe(head, e) && multiset(rest) == multiset(tail) + multiset{e}
    ensures forall x :: x in rest ==> EntryLe(head, x)
  {
    forall x | x in rest ensures EntryLe(head, x) {
      assert x in multiset(rest);
      if x != e {
        assert x in multiset(tail);
      }
    }
  }

  /** A lower bound of a sorted sequence can go in front of it. */
  lemma ConsSorted(head: Entry, rest: seq<Entry>)
    requires SortedEntries(rest) && forall x :: x in rest ==> EntryLe(head, x)
    ensures SortedEntries([head] + rest)
  {
    var r := [head] + rest;
    forall i, j | 0 <= i < j < |r| ensures EntryLe(r[i], r[j]) {
      assert r[j] == rest[j - 1] && r[j] in rest;
      if i > 0 {
        assert r[i] == rest[i - 1];
      }
    }
  }

  /** `Object.entries(payload).sort()`: the same entries, in ascending
      order of their text. */
  function SortEntries(es: seq<Entry>): (r: seq<Entry>)
    ensures multiset(r) == multiset(es)
  {
    if |es| == 0 then []
    else
      assert es == [es[0]] + es[1..];
      InsertEntry(es[0], SortEntries(es[1..]))
  }

  lemma {:induction false} SortEntriesSorted(es: seq<Entry>)
    ensures SortedEntries(SortEntries(es))
  {
    if |es| > 0 {
      SortEntriesSorted(es[1..]);
      InsertEntrySorted(es[0], SortEntries(es[1..]));
    }
  }

  /** A string that starts with a smaller character comes first. */
  lemma FirstCharDecides(x: string, y: string)
    requires |x| > 0 && |y| > 0 && x[0] < y[0]
    ensures LexLe(x, y) && !LexLe(y, x)
  {
  }

  /** The memo payload in declaration order: time, rewards address, fee
      (empty when there is none). */
  function MemoEntries(nowIso: string, delegatorRewardsAddress: string, fee: Option<nat>): seq<Entry>
  {
    [Entry("t", nowIso), Entry("a", delegatorRewardsAddress), Entry("f", if fee.Some? then NatToString(fee.value) else "")]
  }

  /** Sorting puts the memo's keys in the order a, f, t whatever the values. */
  lemma CanonicalMemoOrder(nowIso: string, delegatorRewardsAddress: string, fee: Option<nat>)
    ensures var es := MemoEntries(nowIso, delegatorRewardsAddress, fee);
            SortEntries(es) == [es[1], es[2], es[0]]
  {
    var es := MemoEntries(nowIso, delegatorRewardsAddress, fee);
    var t, a, f := es[0], es[1], es[2];
    FirstCharDecides(EntryText(a), EntryText(f));
    FirstCharDecides(EntryText(f), EntryText(t));
    FirstCharDecides(EntryText(a), EntryText(t));
    assert es[1..] == [a, f] && es[1..][1..] == [f] && es[1..][1..][1..] == [];
    assert SortEntries([f]) == [f] by {
      assert SortEntries([f]) == InsertEntry(f, SortEntries([]));
    }
    assert SortEntries([a, f]) == [a, f] by {
      assert SortEntries([a, f]) == InsertEntry(a, SortEntries([f]));
    }
    assert InsertEntry(t, [a, f]) == [a, f, t] by {
      assert InsertEntry(t, [f]) == [f] + InsertEntry(t, []);
      assert InsertEntry(t, [a, f]) == [a] + InsertEntry(t, [f]);
    }
  }
}
