/** Key allocation for a stake request: the request's `{amount, qty}`
    items are expanded into slots, available keys of the address group are
    reserved and marked delivered, the shortfall is created as new keys,
    and one supplier is assembled per key. The key table is a class whose
    rows the allocation changes in one all-or-nothing transaction. */
module KeyAllocation {
  import opened Common
  import opened Strings
  import opened ProviderModel

  /** One requested stake size and how many suppliers should stake it. */
  datatype StakeItem = StakeItem(amount: nat, qty: nat)

  /** The stake request of the demand side. */
  datatype StakeRequest = StakeRequest(
    addressGroupId: int,
    ownerAddress: string,
    delegatorAddress: string,
    revSharePercentage: Option<int>,
    items: seq<StakeItem>)

  /** The parameters `createKeys` receives. */
  datatype CreateKeysRequest = CreateKeysRequest(
    addressGroupId: int,
    willDeliverTo: string,
    numberOfKeys: nat,
    ownerAddress: string,
    delegatorRevSharePercentage: int,
    delegatorRewardsAddress: string)

  /** The allocation-relevant columns of a key row. */
  datatype KeyData = KeyData(
    address: string,
    state: KeyState,
    addressGroupId: int,
    deliveredTo: string,
    ownerAddress: string,
    delegatorRevSharePercentage: int,
    delegatorRewardsAddress: string)

  datatype KeyRow = KeyRow(id: nat, data: KeyData)

  /** A supplier the demand side will stake: operator, amount as a decimal
      string, and its service configuration. */
  datatype SupplierStake = SupplierStake(operatorAddress: string, stakeAmount: string, services: seq<ServiceConfig>)

  /** Why an allocation fails: the address group is unknown, or a step of
      the transaction failed with the given message. */
  datatype AllocationError = GroupNotFound(addressGroupId: int) | AllocationFailed(cause: string)

  /** The message of the error the caller sees. */
  function ErrorMessage(e: AllocationError): string
  {
    match e
    case GroupNotFound(id) => "Address group with ID " + IntToString(id) + " not found"
    case AllocationFailed(cause) => "Failed to allocate keys: " + cause
  }

  /** An id written in decimal, with a leading `-` when negative. */
  function IntToString(i: int): (s: string)
    ensures |s| > 0
  {
    if i < 0 then "-" + NatToString(-i) else NatToString(i)
  }

  datatype Result<T> = Ok(value: T) | Err(error: AllocationError)

  /** A call the bulk transitions hand to the key table, recorded as made. */
  datatype BulkTransition = MarkAvailable | MarkStaked | MarkUnstaking
  datatype BulkCall = BulkCall(kind: BulkTransition, addresses: seq<string>, requestingDelegator: string)

  // ---------------------------------------------------------------------
  // Slots

  /** Each item's amount repeated `qty` times, items in order. */
  function Slots(items: seq<StakeItem>): seq<nat>
  {
    if |items| == 0 then [] else Slots(items[..|items| - 1]) + Repeat(items[|items| - 1].amount, items[|items| - 1].qty)
  }

  function Repeat(amount: nat, qty: nat): (r: seq<nat>)
    ensures |r| == qty && forall i :: 0 <= i < qty ==> r[i] == amount
  {
    if qty == 0 then [] else Repeat(amount, qty - 1) + [amount]
  }

  function TotalQty(items: seq<StakeItem>): nat
  {
    if |items| == 0 then 0 else TotalQty(items[..|items| - 1]) + items[|items| - 1].qty
  }

  /** There is one slot per requested supplier, and every slot holds an
      amount some item asked for. */
  lemma {:induction false} SlotsShape(items: seq<StakeItem>)
    ensures |Slots(items)| == TotalQty(items)
    ensures forall i :: 0 <= i < |Slots(items)| ==> exists j :: 0 <= j < |items| && Slots(items)[i] == items[j].amount
  {
    if |items| > 0 {
      var init := items[..|items| - 1];
      var last := items[|items| - 1];
      SlotsShape(init);
      forall i | 0 <= i < |Slots(items)|
        ensures exists j :: 0 <= j < |items| && Slots(items)[i] == items[j].amount
      {
        if i < |Slots(init)| {
          var j :| 0 <= j < |init| && Slots(init)[i] == init[j].amount;
          assert items[j] == init[j];
        } else {
          assert Slots(items)[i] == last.amount;
        }
      }
    }
  }

  /** Expanding a request with one more item appends that item's slots. */
  lemma SlotsAppend(items: seq<StakeItem>, item: StakeItem)
    ensures Slots(items + [item]) == Slots(items) + Repeat(item.amount, item.qty)
  {
    assert (items + [item])[..|items|] == items;
  }

  // ---------------------------------------------------------------------
  // The key table

  predicate AvailableIn(k: KeyRow, groupId: int)
  {
    k.data.state == Available && k.data.addressGroupId == groupId
  }

  /** All of the group's available rows, in table order. */
  function AvailableRows(rows: seq<KeyRow>, groupId: int): (r: seq<KeyRow>)
    ensures |r| <= |rows|
    ensures forall k :: k in r <==> k in rows && AvailableIn(k, groupId)
  {
    if |rows| == 0 then []
    else (if AvailableIn(rows[0], groupId) then [rows[0]] else []) + AvailableRows(rows[1..], groupId)
  }

  /** The first `limit` rows (in table order) of the group's available
      keys: as many as there are, up to `limit`, and no row is skipped. */
  function FirstAvailable(rows: seq<KeyRow>, groupId: int, limit: nat): (r: seq<KeyRow>)
    ensures var avail := AvailableRows(rows, groupId);
            r == avail[..if limit < |avail| then limit else |avail|]
    ensures |r| <= limit && |r| <= |rows|
    ensures forall k :: k in r ==> k in rows && AvailableIn(k, groupId)
  {
    if |rows| == 0 || limit == 0 then []
    else if AvailableIn(rows[0], groupId)
    then
      var rest := FirstAvailable(rows[1..], groupId, limit - 1);
      PrefixCons(rows[0], AvailableRows(rows[1..], groupId), limit);
      [rows[0]] + rest
    else FirstAvailable(rows[1..], groupId, limit)
  }

  /** Taking a prefix of `[x] + s` keeps `x` and takes one less of `s`. */
  lemma PrefixCons(x: KeyRow, s: seq<KeyRow>, limit: nat)
    requires limit > 0
    ensures var n := if limit - 1 < |s| then limit - 1 else |s|;
            var m := if limit < |s| + 1 then limit else |s| + 1;
            ([x] + s)[..m] == [x] + s[..n]
  {
  }

  function Ids(rows: seq<KeyRow>): (ids: seq<nat>)
    ensures |ids| == |rows| && forall i :: 0 <= i < |rows| ==> ids[i] == rows[i].id
  {
    if |rows| == 0 then [] else [rows[0].id] + Ids(rows[1..])
  }

  function Addresses(rows: seq<KeyRow>): (a: seq<string>)
    ensures |a| == |rows| && forall i :: 0 <= i < |rows| ==> a[i] == rows[i].data.address
  {
    if |rows| == 0 then [] else [rows[0].data.address] + Addresses(rows[1..])
  }

  /** A row as `markKeysDelivered` leaves it. */
  function AsDelivered(d: KeyData, requestingDelegator: string, owner: string, revShare: int, delegatorAddress: string): KeyData
  {
    d.(state := KeyState.Delivered, deliveredTo := requestingDelegator, ownerAddress := owner,
       delegatorRevSharePercentage := revShare, delegatorRewardsAddress := delegatorAddress)
  }

  predicate DistinctIds(rows: seq<KeyRow>)
  {
    forall i, j :: 0 <= i < j < |rows| ==> rows[i].id != rows[j].id
  }

  /** The rows whose id is in `ids`, as `markKeysDelivered` leaves them, in table order. */
  function MarkedRows(rows: seq<KeyRow>, ids: seq<nat>, requestingDelegator: string, owner: string,
                      revShare: int, delegatorAddress: string): seq<KeyRow>
  {
    if |rows| == 0 then []
    else
      (if rows[0].id in ids
       then [KeyRow(rows[0].id, AsDelivered(rows[0].data, requestingDelegator, owner, revShare, delegatorAddress))]
       else [])
      + MarkedRows(rows[1..], ids, requestingDelegator, owner, revShare, delegatorAddress)
  }

  /** An id no row carries does not change what is marked. */
  lemma {:induction false} MarkedRowsIgnoresAbsent(rows: seq<KeyRow>, ids: seq<nat>, x: nat,
                                                   requestingDelegator: string, owner: string, revShare: int, delegatorAddress: string)
    requires x !in Ids(rows)
    ensures MarkedRows(rows, [x] + ids, requestingDelegator, owner, revShare, delegatorAddress)
            == MarkedRows(rows, ids, requestingDelegator, owner, revShare, delegatorAddress)
  {
    if |rows| > 0 {
      assert Ids(rows) == [rows[0].id] + Ids(rows[1..]);
      MarkedRowsIgnoresAbsent(rows[1..], ids, x, requestingDelegator, owner, revShare, delegatorAddress);
    }
  }

  lemma {:induction false} MarkedNone(rows: seq<KeyRow>, requestingDelegator: string, owner: string, revShare: int, delegatorAddress: string)
    ensures MarkedRows(rows, [], requestingDelegator, owner, revShare, delegatorAddress) == []
  {
    if |rows| > 0 {
      MarkedNone(rows[1..], requestingDelegator, owner, revShare, delegatorAddress);
    }
  }

  /** With distinct ids, the tail of the table again has distinct ids and
      none of them is the head's. */
  lemma DistinctTail(rows: seq<KeyRow>)
    requires |rows| > 0 && DistinctIds(rows)
    ensures DistinctIds(rows[1..])
    ensures forall k :: k in rows[1..] ==> k.id != rows[0].id
    ensures rows[0].id !in Ids(rows[1..])
  {
    var tail := rows[1..];
    forall j | 0 <= j < |tail| ensures Ids(tail)[j] != rows[0].id {
      assert tail[j] == rows[j + 1];
    }
  }

  /** Distinct ids, stated head first: the head's id is not in the tail,
      whose ids are again unique. */
  predicate UniqueIds(rows: seq<KeyRow>)
  {
    |rows| == 0 || (rows[0].id !in Ids(rows[1..]) && UniqueIds(rows[1..]))
  }

  lemma {:induction false} DistinctIdsUnique(rows: seq<KeyRow>)
    requires DistinctIds(rows)
    ensures UniqueIds(rows)
  {
    if |rows| > 0 {
      DistinctTail(rows);
      DistinctIdsUnique(rows[1..]);
    }
  }

  /** Marking the ids of the reserved keys yields those keys, in the
      order they were reserved, each still at its address. */
  lemma {:induction false} MarkedFirstAvailable(rows: seq<KeyRow>, groupId: int, limit: nat,
                                                requestingDelegator: string, owner: string, revShare: int, delegatorAddress: string)
    requires UniqueIds(rows)
    ensures var reserved := FirstAvailable(rows, groupId, limit);
            Addresses(MarkedRows(rows, Ids(reserved), requestingDelegator, owner, revShare, delegatorAddress))
            == Addresses(reserved)
    decreases |rows|, 1
  {
    var reserved := FirstAvailable(rows, groupId, limit);
    var m := MarkedRows(rows, Ids(reserved), requestingDelegator, owner, revShare, delegatorAddress);
    if |rows| == 0 || limit == 0 {
      assert reserved == [] && Ids(reserved) == [];
      MarkedNone(rows, requestingDelegator, owner, revShare, delegatorAddress);
    } else if AvailableIn(rows[0], groupId) {
      MarkedHeadReserved(rows, groupId, limit, requestingDelegator, owner, revShare, delegatorAddress);
    } else {
      var tail := rows[1..];
      MarkedFirstAvailable(tail, groupId, limit, requestingDelegator, owner, revShare, delegatorAddress);
      assert reserved == FirstAvailable(tail, groupId, limit);
      forall j | 0 <= j < |reserved| ensures Ids(reserved)[j] != rows[0].id {
        assert reserved[j] in reserved && reserved[j] in tail;
        var i :| 0 <= i < |tail| && tail[i] == reserved[j];
        assert Ids(tail)[i] == reserved[j].id;
      }
      assert m == MarkedRows(tail, Ids(reserved), requestingDelegator, owner, revShare, delegatorAddress);
    }
  }

  /** The step of `MarkedFirstAvailable` where the head row is reserved. */
  lemma {:induction false} MarkedHeadReserved(rows: seq<KeyRow>, groupId: int, limit: nat,
                                              requestingDelegator: string, owner: string, revShare: int, delegatorAddress: string)
    requires UniqueIds(rows) && |rows| > 0 && limit > 0
    requires AvailableIn(rows[0], groupId)
    ensures var reserved := FirstAvailable(rows, groupId, limit);
            Addresses(MarkedRows(rows, Ids(reserved), requestingDelegator, owner, revShare, delegatorAddress))
            == Addresses(reserved)
    decreases |rows|, 0
  {
    var tail, l := rows[1..], limit - 1;
    MarkedFirstAvailable(tail, groupId, l, requestingDelegator, owner, revShare, delegatorAddress);
    HeadMarkedFirst(rows, tail, groupId, limit, l, requestingDelegator, owner, revShare, delegatorAddress);
  }

  /** A reserved head row is marked first, ahead of the rows reserved
      from the tail, so the addresses agree when they agree on the tail. */
  lemma HeadMarkedFirst(rows: seq<KeyRow>, tail: seq<KeyRow>, groupId: int, limit: nat, l: nat,
                        requestingDelegator: string, owner: string, revShare: int, delegatorAddress: string)
    requires |rows| > 0 && tail == rows[1..] && l == limit - 1 && rows[0].id !in Ids(tail)
    requires AvailableIn(rows[0], groupId)
    requires var rest := FirstAvailable(tail, groupId, l);
             Addresses(MarkedRows(tail, Ids(rest), requestingDelegator, owner, revShare, delegatorAddress)) == Addresses(rest)
    ensures var reserved := FirstAvailable(rows, groupId, limit);
            Addresses(MarkedRows(rows, Ids(reserved), requestingDelegator, owner, revShare, delegatorAddress))
            == Addresses(reserved)
  {
    var rest := FirstAvailable(tail, groupId, l);
    var mt := MarkedRows(tail, Ids(rest), requestingDelegator, owner, revShare, delegatorAddress);
    var head := KeyRow(rows[0].id, AsDelivered(rows[0].data, requestingDelegator, owner, revShare, delegatorAddress));
    var reserved := FirstAvailable(rows, groupId, limit);
    assert reserved == [rows[0]] + rest;
    IdsCons(rows[0], rest);
    MarkedHead(rows, Ids(rest), requestingDelegator, owner, revShare, delegatorAddress);
    AddressesOfCons(MarkedRows(rows, Ids(reserved), requestingDelegator, owner, revShare, delegatorAddress), head, mt, reserved, rows[0], rest);
  }

  lemma AddressesOfCons(m: seq<KeyRow>, head: KeyRow, mt: seq<KeyRow>, reserved: seq<KeyRow>, first: KeyRow, rest: seq<KeyRow>)
    requires m == [head] + mt && reserved == [first] + rest
    requires head.data.address == first.data.address && Addresses(mt) == Addresses(rest)
    ensures Addresses(m) == Addresses(reserved)
  {
    AddressesCons(head, mt);
    AddressesCons(first, rest);
  }

  lemma IdsCons(k: KeyRow, rows: seq<KeyRow>)
    ensures Ids([k] + rows) == [k.id] + Ids(rows)
  {
  }

  lemma AddressesCons(k: KeyRow, rows: seq<KeyRow>)
    ensures Addresses([k] + rows) == [k.data.address] + Addresses(rows)
  {
  }

  /** A head row whose id the tail does not carry is marked once, first. */
  lemma MarkedHead(rows: seq<KeyRow>, ids: seq<nat>,
                   requestingDelegator: string, owner: string, revShare: int, delegatorAddress: string)
    requires |rows| > 0 && rows[0].id !in Ids(rows[1..])
    ensures MarkedRows(rows, [rows[0].id] + ids, requestingDelegator, owner, revShare, delegatorAddress)
            == [KeyRow(rows[0].id, AsDelivered(rows[0].data, requestingDelegator, owner, revShare, delegatorAddress))]
               + MarkedRows(rows[1..], ids, requestingDelegator, owner, revShare, delegatorAddress)
  {
    MarkedRowsIgnoresAbsent(rows[1..], ids, rows[0].id, requestingDelegator, owner, revShare, delegatorAddress);
  }

  class KeyTable {
    var rows: seq<KeyRow>
    var nextId: nat
    /** The bulk transitions handed to the table, oldest first. */
    var bulkCalls: seq<BulkCall>

    /** Row ids are distinct and below `nextId`. */
    ghost predicate Valid()
      reads this
    {
      (forall i :: 0 <= i < |rows| ==> rows[i].id < nextId) && DistinctIds(rows)
    }

    constructor()
      ensures rows == [] && nextId == 0 && bulkCalls == [] && Valid()
    {
      rows, nextId, bulkCalls := [], 0, [];
    }

    /** `lockAvailableKeys`: up to `limit` available keys of the group. */
    function LockAvailableKeys(groupId: int, limit: nat): (r: seq<KeyRow>)
      reads this
      ensures |r| <= limit
      ensures forall k :: k in r ==> k in rows && AvailableIn(k, groupId)
    {
      FirstAvailable(rows, groupId, limit)
    }

    /** `markKeysDelivered`: the rows with the given ids become delivered
        to the requesting party with the request's metadata; they are
        returned in table order. */
    method MarkKeysDelivered(ids: seq<nat>, requestingDelegator: string, owner: string, revShare: int, delegatorAddress: string)
      returns (marked: seq<KeyRow>)
      requires Valid()
      modifies this
      ensures Valid() && nextId == old(nextId) && bulkCalls == old(bulkCalls)
      ensures |rows| == |old(rows)|
      ensures forall i :: 0 <= i < |rows| ==>
                rows[i] == (if old(rows)[i].id in ids
                            then KeyRow(old(rows)[i].id, AsDelivered(old(rows)[i].data, requestingDelegator, owner, revShare, delegatorAddress))
                            else old(rows)[i])
      ensures marked == MarkedRows(old(rows), ids, requestingDelegator, owner, revShare, delegatorAddress)
    {
      var i := 0;
      marked := [];
      var updated: seq<KeyRow> := [];
      while i < |rows|
        invariant 0 <= i <= |rows|
        invariant |updated| == i
        invariant forall j :: 0 <= j < i ==>
                    updated[j] == (if rows[j].id in ids
                                   then KeyRow(rows[j].id, AsDelivered(rows[j].data, requestingDelegator, owner, revShare, delegatorAddress))
                                   else rows[j])
        invariant marked + MarkedRows(rows[i..], ids, requestingDelegator, owner, revShare, delegatorAddress)
                  == MarkedRows(rows, ids, requestingDelegator, owner, revShare, delegatorAddress)
      {
        var row := rows[i];
        assert rows[i..] == [rows[i]] + rows[i + 1..];
        if row.id in ids {
          row := KeyRow(row.id, AsDelivered(row.data, requestingDelegator, owner, revShare, delegatorAddress));
          marked := marked + [row];
        }
        updated := updated + [row];
        i := i + 1;
      }
      assert marked + [] == marked;
      rows := updated;
    }

    /** `insertNewKeys`: the rows are appended under fresh ids and returned. */
    method InsertNewKeys(newRows: seq<KeyData>) returns (inserted: seq<KeyRow>)
      requires Valid()
      modifies this
      ensures Valid() && bulkCalls == old(bulkCalls)
      ensures rows == old(rows) + inserted
      ensures |inserted| == |newRows|
      ensures forall i :: 0 <= i < |newRows| ==> inserted[i].data == newRows[i] && inserted[i].id >= old(nextId)
    {
      inserted := [];
      var i := 0;
      while i < |newRows|
        invariant 0 <= i <= |newRows|
        invariant rows == old(rows) && bulkCalls == old(bulkCalls)
        invariant |inserted| == i && nextId == old(nextId) + i
        invariant forall j :: 0 <= j < i ==> inserted[j] == KeyRow(old(nextId) + j, newRows[j])
      {
        inserted := inserted + [KeyRow(nextId, newRows[i])];
        nextId := nextId + 1;
        i := i + 1;
      }
      rows := rows + inserted;
      assert forall j :: 0 <= j < |rows| ==> rows[j].id < nextId;
    }

    /** Hands a bulk transition to the keys data layer, unchanged. */
    method RecordBulk(kind: BulkTransition, addresses: seq<string>, requestingDelegator: string)
      modifies this
      ensures rows == old(rows) && nextId == old(nextId)
      ensures bulkCalls == old(bulkCalls) + [BulkCall(kind, addresses, requestingDelegator)]
    {
      bulkCalls := bulkCalls + [BulkCall(kind, addresses, requestingDelegator)];
    }
  }

  /** `releaseDeliveredSuppliers`. */
  method ReleaseDeliveredSuppliers(table: KeyTable, addresses: seq<string>, requestingDelegator: string)
    modifies table
    ensures table.rows == old(table.rows) && table.nextId == old(table.nextId)
    ensures table.bulkCalls == old(table.bulkCalls) + [BulkCall(MarkAvailable, addresses, requestingDelegator)]
  {
    table.RecordBulk(MarkAvailable, addresses, requestingDelegator);
  }

  /** `markDeliveredSupplierAsStaked`. */
  method MarkDeliveredSupplierAsStaked(table: KeyTable, addresses: seq<string>, requestingDelegator: string)
    modifies table
    ensures table.rows == old(table.rows) && table.nextId == old(table.nextId)
    ensures table.bulkCalls == old(table.bulkCalls) + [BulkCall(MarkStaked, addresses, requestingDelegator)]
  {
    table.RecordBulk(MarkStaked, addresses, requestingDelegator);
  }

  /** `markStakedSupplierAsUnstaking`. */
  method MarkStakedSupplierAsUnstaking(table: KeyTable, addresses: seq<string>, requestingDelegator: string)
    modifies table
    ensures table.rows == old(table.rows) && table.nextId == old(table.nextId)
    ensures table.bulkCalls == old(table.bulkCalls) + [BulkCall(MarkUnstaking, addresses, requestingDelegator)]
  {
    table.RecordBulk(MarkUnstaking, addresses, requestingDelegator);
  }

  // ---------------------------------------------------------------------
  // The allocation

  /** The first group with the requested id (`allGroups.find`). */
  function FindGroup(groups: seq<AddressGroup>, id: int): (g: Option<AddressGroup>)
    ensures g.Some? <==> exists i :: 0 <= i < |groups| && groups[i].id == id
    ensures g.Some? ==> g.value in groups && g.value.id == id
  {
    if |groups| == 0 then None
    else if groups[0].id == id then Some(groups[0])
    else
      var g := FindGroup(groups[1..], id);
      assert (exists i :: 0 <= i < |groups| && groups[i].id == id) ==> exists i :: 0 <= i < |groups[1..]| && groups[1..][i].id == id by {
        if exists i :: 0 <= i < |groups| && groups[i].id == id {
          var i :| 0 <= i < |groups| && groups[i].id == id;
          assert groups[1..][i - 1].id == id;
        }
      }
      g
  }

  function CreateRequest(r: StakeRequest, requestingDelegator: string, n: nat): CreateKeysRequest
  {
    CreateKeysRequest(r.addressGroupId, requestingDelegator, n, r.ownerAddress, RequestedShare(r), r.delegatorAddress)
  }

  function OperatorAddresses(suppliers: seq<SupplierStake>): (a: seq<string>)
    ensures |a| == |suppliers| && forall i :: 0 <= i < |a| ==> a[i] == suppliers[i].operatorAddress
  {
    if |suppliers| == 0 then [] else [suppliers[0].operatorAddress] + OperatorAddresses(suppliers[1..])
  }

  /** The suppliers for the allocated keys: key i stakes slot i. */
  method AssembleSuppliers(keys: seq<string>, slots: seq<nat>, group: AddressGroup, r: StakeRequest,
                           buildServices: (AddressGroup, string, string, Option<int>, string) -> seq<ServiceConfig>)
    returns (suppliers: seq<SupplierStake>)
    requires |keys| <= |slots|
    ensures |suppliers| == |keys|
    ensures forall i :: 0 <= i < |keys| ==>
              suppliers[i] == SupplierStake(keys[i], NatToString(slots[i]),
                                            buildServices(group, keys[i], r.ownerAddress, r.revSharePercentage, r.delegatorAddress))
  {
    suppliers := [];
    var i := 0;
    while i < |keys|
      invariant 0 <= i <= |keys| && |suppliers| == i
      invariant forall j :: 0 <= j < i ==>
                  suppliers[j] == SupplierStake(keys[j], NatToString(slots[j]),
                                                buildServices(group, keys[j], r.ownerAddress, r.revSharePercentage, r.delegatorAddress))
    {
      var services := buildServices(group, keys[i], r.ownerAddress, r.revSharePercentage, r.delegatorAddress);
      suppliers := suppliers + [SupplierStake(keys[i], NatToString(slots[i]), services)];
      i := i + 1;
    }
  }

  /** The delegator share a request carries, 0 when it names none. */
  function RequestedShare(r: StakeRequest): int
  {
    if r.revSharePercentage.Some? then r.revSharePercentage.value else 0
  }

  /** The addresses of generated keys. */
  function DataAddresses(ds: seq<KeyData>): (a: seq<string>)
    ensures |a| == |ds| && forall i :: 0 <= i < |ds| ==> a[i] == ds[i].address
  {
    if |ds| == 0 then [] else [ds[0].address] + DataAddresses(ds[1..])
  }

  /** A preview allocation: nothing is reserved or stored; all `needed`
      keys are generated for the request. */
  method PreviewKeys(r: StakeRequest, requestingDelegator: string, needed: nat,
                     createKeys: CreateKeysRequest -> seq<KeyData>)
    returns (keys: seq<string>)
    requires forall q :: |createKeys(q)| == q.numberOfKeys
    ensures |keys| == needed
    ensures keys == DataAddresses(createKeys(CreateRequest(r, requestingDelegator, needed)))
  {
    keys := [];
    if needed > 0 {
      var newRows := createKeys(CreateRequest(r, requestingDelegator, needed));
      keys := DataAddresses(newRows);
    }
  }

  /** The key table after a real allocation of `needed` keys: the group's
      first available rows are delivered to the requester with the
      request's owner, share and delegator address, every other row is
      unchanged, and the shortfall is appended as the keys generated for
      it, under ids from `beforeNext` on. */
  predicate AllocatedTable(before: seq<KeyRow>, beforeNext: nat, after: seq<KeyRow>, r: StakeRequest,
                           requestingDelegator: string, needed: nat, createKeys: CreateKeysRequest -> seq<KeyData>)
  {
    var reused := FirstAvailable(before, r.addressGroupId, needed);
    var generated := createKeys(CreateRequest(r, requestingDelegator, needed - |reused|));
    && |after| == |before| + |generated|
    && (forall i :: 0 <= i < |before| ==>
          after[i] == (if before[i].id in Ids(reused)
                       then KeyRow(before[i].id, AsDelivered(before[i].data, requestingDelegator, r.ownerAddress,
                                                             RequestedShare(r), r.delegatorAddress))
                       else before[i]))
    && (forall i :: 0 <= i < |generated| ==> after[|before| + i].data == generated[i] && after[|before| + i].id >= beforeNext)
  }

  /** The keys a real allocation hands out: the reserved ones in table
      order, then the generated ones. */
  function AllocatedKeys(before: seq<KeyRow>, r: StakeRequest, requestingDelegator: string, needed: nat,
                         createKeys: CreateKeysRequest -> seq<KeyData>): seq<string>
  {
    var reused := FirstAvailable(before, r.addressGroupId, needed);
    Addresses(reused) + DataAddresses(createKeys(CreateRequest(r, requestingDelegator, needed - |reused|)))
  }

  /** A real allocation: the group's first available keys are reserved
      and marked delivered to the requesting party, and the shortfall is
      generated and inserted. The keys come back reused first, then
      created. */
  method AllocateKeys(table: KeyTable, r: StakeRequest, requestingDelegator: string, needed: nat,
                      createKeys: CreateKeysRequest -> seq<KeyData>)
    returns (keys: seq<string>)
    requires table.Valid()
    requires forall q :: |createKeys(q)| == q.numberOfKeys
    modifies table
    ensures table.Valid() && table.bulkCalls == old(table.bulkCalls)
    ensures AllocatedTable(old(table.rows), old(table.nextId), table.rows, r, requestingDelegator, needed, createKeys)
    ensures keys == AllocatedKeys(old(table.rows), r, requestingDelegator, needed, createKeys)
    ensures |keys| == needed
  {
    ghost var before, beforeNext := table.rows, table.nextId;
    var revShare := RequestedShare(r);
    var avail := table.LockAvailableKeys(r.addressGroupId, needed);
    DistinctIdsUnique(table.rows);
    MarkedFirstAvailable(table.rows, r.addressGroupId, needed, requestingDelegator, r.ownerAddress, revShare, r.delegatorAddress);
    var reused := table.MarkKeysDelivered(Ids(avail), requestingDelegator, r.ownerAddress, revShare, r.delegatorAddress);
    assert Addresses(reused) == Addresses(avail);
    var toCreate := needed - |reused|;
    var created: seq<KeyRow> := [];
    ghost var marked := table.rows;
    ghost var generated := createKeys(CreateRequest(r, requestingDelegator, toCreate));
    if toCreate > 0 {
      var newRows := createKeys(CreateRequest(r, requestingDelegator, toCreate));
      created := table.InsertNewKeys(newRows);
    }
    AllocatedFrom(before, beforeNext, marked, created, table.rows, avail, generated, r, requestingDelegator, needed, createKeys);
    keys := Addresses(reused) + Addresses(created);
  }

  /** The table `markKeysDelivered` and `insertNewKeys` leave behind is
      the one `AllocatedTable` describes, and the created keys are the
      generated ones. */
  lemma AllocatedFrom(before: seq<KeyRow>, beforeNext: nat, marked: seq<KeyRow>, created: seq<KeyRow>, after: seq<KeyRow>,
                      avail: seq<KeyRow>, generated: seq<KeyData>, r: StakeRequest, requestingDelegator: string,
                      needed: nat, createKeys: CreateKeysRequest -> seq<KeyData>)
    requires avail == FirstAvailable(before, r.addressGroupId, needed)
    requires generated == createKeys(CreateRequest(r, requestingDelegator, needed - |avail|))
    requires |marked| == |before|
    requires forall i :: 0 <= i < |marked| ==>
               marked[i] == (if before[i].id in Ids(avail)
                             then KeyRow(before[i].id, AsDelivered(before[i].data, requestingDelegator, r.ownerAddress,
                                                                   RequestedShare(r), r.delegatorAddress))
                             else before[i])
    requires |created| == |generated|
    requires forall i :: 0 <= i < |generated| ==> created[i].data == generated[i] && created[i].id >= beforeNext
    requires after == marked + created
    ensures AllocatedTable(before, beforeNext, after, r, requestingDelegator, needed, createKeys)
    ensures Addresses(created) == DataAddresses(generated)
  {
    assert |after| == |before| + |generated|;
    forall i | 0 <= i < |before|
      ensures after[i] == (if before[i].id in Ids(avail)
                           then KeyRow(before[i].id, AsDelivered(before[i].data, requestingDelegator, r.ownerAddress,
                                                                 RequestedShare(r), r.delegatorAddress))
                           else before[i])
    {
      assert after[i] == marked[i];
    }
    forall i | 0 <= i < |generated| ensures after[|before| + i].data == generated[i] && after[|before| + i].id >= beforeNext {
      assert after[|before| + i] == created[i];
    }
  }

  /** `getSupplierStakeConfigurations`. `createKeys` stands for the key
      generator (it yields as many keys as asked for), `buildServices` for
      the service-config builder (group, operator, owner, delegator share,
      delegator address), and `failure` for a step of the transaction that
      throws with that message. */
  method GetSupplierStakeConfigurations(table: KeyTable, groups: seq<AddressGroup>, r: StakeRequest,
                                        requestingDelegator: string, simulate: bool,
                                        createKeys: CreateKeysRequest -> seq<KeyData>,
                                        buildServices: (AddressGroup, string, string, Option<int>, string) -> seq<ServiceConfig>,
                                        failure: Option<string>)
    returns (result: Result<seq<SupplierStake>>)
    requires table.Valid()
    requires forall q :: |createKeys(q)| == q.numberOfKeys
    modifies table
    ensures table.Valid() && table.bulkCalls == old(table.bulkCalls)
    // an unknown group fails before anything else
    ensures FindGroup(groups, r.addressGroupId).None? ==>
              result == Err(GroupNotFound(r.addressGroupId)) && table.rows == old(table.rows)
              && ErrorMessage(result.error) == "Address group with ID " + IntToString(r.addressGroupId) + " not found"
    // any failure inside the transaction rolls it back
    ensures FindGroup(groups, r.addressGroupId).Some? && failure.Some? ==>
              result == Err(AllocationFailed(failure.value)) && table.rows == old(table.rows)
              && ErrorMessage(result.error) == "Failed to allocate keys: " + failure.value
    ensures result.Err? ==> table.rows == old(table.rows)
    ensures FindGroup(groups, r.addressGroupId).Some? && failure.None? ==> result.Ok?
    // a preview changes nothing and hands out generated keys only
    ensures simulate ==> table.rows == old(table.rows) && table.nextId == old(table.nextId)
    ensures result.Ok? && simulate ==>
              OperatorAddresses(result.value) == DataAddresses(createKeys(CreateRequest(r, requestingDelegator, |Slots(r.items)|)))
    // a real allocation reuses the group's available keys first and inserts only the shortfall
    ensures result.Ok? && !simulate ==>
              AllocatedTable(old(table.rows), old(table.nextId), table.rows, r, requestingDelegator, |Slots(r.items)|, createKeys)
              && OperatorAddresses(result.value) == AllocatedKeys(old(table.rows), r, requestingDelegator, |Slots(r.items)|, createKeys)
    // one supplier per slot: key i stakes slot i with the services built for it
    ensures result.Ok? ==> |result.value| == |Slots(r.items)|
    ensures result.Ok? ==> forall i :: 0 <= i < |result.value| ==>
              && result.value[i].stakeAmount == NatToString(Slots(r.items)[i])
              && result.value[i].services
                 == buildServices(FindGroup(groups, r.addressGroupId).value, result.value[i].operatorAddress,
                                  r.ownerAddress, r.revSharePercentage, r.delegatorAddress)
  {
    var group := FindGroup(groups, r.addressGroupId);
    if group.None? {
      return Err(GroupNotFound(r.addressGroupId));
    }
    var slots := Slots(r.items);

    // the transaction: the failure is modelled as happening after every
    // write, the most any failure could have to roll back
    var snapshotRows, snapshotNext := table.rows, table.nextId;
    var keys: seq<string>;
    if simulate {
      keys := PreviewKeys(r, requestingDelegator, |slots|, createKeys);
    } else {
      keys := AllocateKeys(table, r, requestingDelegator, |slots|, createKeys);
    }
    if failure.Some? {
      table.rows, table.nextId := snapshotRows, snapshotNext;
      return Err(AllocationFailed(failure.value));
    }
    var suppliers := AssembleSuppliers(keys, slots, group.value, r, buildServices);
    return Ok(suppliers);
  }
}
