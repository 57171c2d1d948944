/** The demand side's node table: staked nodes with their status and the
    height of their last update, and the relation table linking
    transactions to nodes. The table is a class whose rows the data-layer
    operations read, update and append to; ids are handed out in
    increasing order, so table order is id order. */
module NodesDal {
  import opened Common

  /** Node states; only `Unstaked` matters to the queries here. */
  datatype NodeStatus = Staked | Unstaking | Unstaked

  datatype NodeRow = NodeRow(id: int, address: string, status: NodeStatus, stakeAmount: int, lastUpdatedHeight: int)

  /** A node to insert; the id is assigned by the table. */
  datatype NewNode = NewNode(address: string, status: NodeStatus, stakeAmount: int, lastUpdatedHeight: int)

  /** A partial node row (`Partial<InsertNode>`): absent fields keep their value. */
  datatype NodeUpdate = NodeUpdate(status: Option<NodeStatus>, stakeAmount: Option<int>, lastUpdatedHeight: Option<int>)

  datatype Relation = Relation(transactionId: int, nodeId: int)

  /** Id and address, as the range query and the insert return them. */
  datatype NodeRef = NodeRef(id: int, address: string)

  /** The aggregate row: the number of nodes and the smallest and largest
      id, which SQL reports as null for an empty table. */
  datatype NodesMinMax = NodesMinMax(total: nat, minId: Option<int>, maxId: Option<int>)

  function ApplyNodeUpdate(n: NodeRow, u: NodeUpdate): (r: NodeRow)
    ensures r.id == n.id && r.address == n.address
  {
    n.(status := if u.status.Some? then u.status.value else n.status,
       stakeAmount := if u.stakeAmount.Some? then u.stakeAmount.value else n.stakeAmount,
       lastUpdatedHeight := if u.lastUpdatedHeight.Some? then u.lastUpdatedHeight.value else n.lastUpdatedHeight)
  }

  /** Ids strictly increase along the table. */
  predicate Ascending(rows: seq<NodeRow>)
  {
    forall i, j :: 0 <= i < j < |rows| ==> rows[i].id < rows[j].id
  }

  predicate AscendingRefs(refs: seq<NodeRef>)
  {
    forall i, j :: 0 <= i < j < |refs| ==> refs[i].id < refs[j].id
  }

  /** The ids in the range query's window that are not unstaked, in table order. */
  function InRange(rows: seq<NodeRow>, lower: int, endId: int): (r: seq<NodeRef>)
    ensures forall x :: x in r <==> exists n :: n in rows && NodeRef(n.id, n.address) == x
                                                 && lower < n.id <= endId && n.status != Unstaked
    ensures Ascending(rows) ==> AscendingRefs(r)
    ensures Ascending(rows) && |rows| > 0 ==> forall x :: x in r ==> rows[0].id <= x.id
  {
    if |rows| == 0 then []
    else
      var rest := InRange(rows[1..], lower, endId);
      assert forall n :: n in rows <==> n == rows[0] || n in rows[1..];
      assert Ascending(rows) ==> Ascending(rows[1..]) && (|rows| > 1 ==> rows[0].id < rows[1].id);
      if lower < rows[0].id <= endId && rows[0].status != Unstaked
      then [NodeRef(rows[0].id, rows[0].address)] + rest
      else rest
  }

  /** The first row with the address. */
  function FirstWithAddress(rows: seq<NodeRow>, address: string): (r: Option<NodeRow>)
    ensures r.Some? <==> exists n :: n in rows && n.address == address
    ensures r.Some? ==> r.value in rows && r.value.address == address
  {
    if |rows| == 0 then None
    else if rows[0].address == address then Some(rows[0])
    else
      assert forall n :: n in rows <==> n == rows[0] || n in rows[1..];
      FirstWithAddress(rows[1..], address)
  }

  function Refs(rows: seq<NodeRow>): (r: seq<NodeRef>)
    ensures |r| == |rows| && forall i :: 0 <= i < |rows| ==> r[i] == NodeRef(rows[i].id, rows[i].address)
  {
    if |rows| == 0 then [] else [NodeRef(rows[0].id, rows[0].address)] + Refs(rows[1..])
  }

  /** One relation per node, in order. */
  function LinkAll(transactionId: int, refs: seq<NodeRef>): (r: seq<Relation>)
    ensures |r| == |refs| && forall i :: 0 <= i < |refs| ==> r[i] == Relation(transactionId, refs[i].id)
  {
    if |refs| == 0 then [] else [Relation(transactionId, refs[0].id)] + LinkAll(transactionId, refs[1..])
  }

  /** The rows whose address is in the list, in table order. */
  function WithAddressIn(rows: seq<NodeRow>, addresses: seq<string>): (r: seq<NodeRow>)
    ensures forall n :: n in r <==> n in rows && n.address in addresses
    ensures |r| <= |rows|
  {
    if |rows| == 0 then []
    else
      assert forall n :: n in rows <==> n == rows[0] || n in rows[1..];
      (if rows[0].address in addresses then [rows[0]] else []) + WithAddressIn(rows[1..], addresses)
  }

  /** What `getNodesMinAndMax` makes of the rows the aggregate query
      returns: zeros when there is none, otherwise the first. */
  function MinMaxFromRows(result: seq<NodesMinMax>): (r: NodesMinMax)
    ensures |result| == 0 ==> r.total == 0 && r.minId == Some(0) && r.maxId == Some(0)
    ensures |result| > 0 ==> r == result[0]
  {
    if |result| == 0 then NodesMinMax(0, Some(0), Some(0)) else result[0]
  }

  class NodeTable {
    var rows: seq<NodeRow>
    var relations: seq<Relation>
    var nextId: int

    /** Ids increase along the table and stay below the next id to hand out. */
    ghost predicate Valid()
      reads this
    {
      Ascending(rows) && forall i :: 0 <= i < |rows| ==> rows[i].id < nextId
    }

    constructor()
      ensures Valid() && rows == [] && relations == []
    {
      rows, relations, nextId := [], [], 1;
    }

    /** `loadNode`: the row with the address, or none. */
    function LoadNode(address: string): (r: Option<NodeRow>)
      reads this
      ensures r.Some? <==> exists n :: n in rows && n.address == address
      ensures r.Some? ==> r.value in rows && r.value.address == address
    {
      FirstWithAddress(rows, address)
    }

    /** The single row of the `count`/`min`/`max` aggregate. An aggregate
        without grouping yields exactly one row, also for an empty table. */
    function AggregateRows(): (r: seq<NodesMinMax>)
      reads this
      requires Valid()
      ensures |r| == 1 && r[0].total == |rows|
      ensures r[0].minId.None? <==> |rows| == 0
      ensures r[0].maxId.None? <==> |rows| == 0
      ensures |rows| > 0 ==> r[0].minId == Some(rows[0].id) && r[0].maxId == Some(rows[|rows| - 1].id)
    {
      if |rows| == 0 then [NodesMinMax(0, None, None)]
      else [NodesMinMax(|rows|, Some(rows[0].id), Some(rows[|rows| - 1].id))]
    }

    /** `getNodesMinAndMax` as written. Since the aggregate always yields
        its one row, the all-zero fallback is never taken and an empty
        table reports null bounds, not the documented zeros. */
    function GetNodesMinAndMax(): (r: NodesMinMax)
      reads this
      requires Valid()
      ensures r.total == |rows|
      ensures r.minId.Some? ==> forall n :: n in rows ==> r.minId.value <= n.id
      ensures r.maxId.Some? ==> forall n :: n in rows ==> n.id <= r.maxId.value
      ensures |rows| == 0 ==> r.minId.None? && r.maxId.None?
      ensures |rows| > 0 ==> r.minId == Some(rows[0].id) && r.maxId == Some(rows[|rows| - 1].id)
    {
      MinMaxFromRows(AggregateRows())
    }

    /** The bounds as documented: 0 for both ids when there are no nodes. */
    function NodesMinAndMaxOrZero(): (r: NodesMinMax)
      reads this
      requires Valid()
      ensures r.total == |rows| && r.minId.Some? && r.maxId.Some?
      ensures |rows| == 0 ==> r.minId == Some(0) && r.maxId == Some(0)
      ensures |rows| > 0 ==> r.minId.value in Ids(rows) && r.maxId.value in Ids(rows)
      ensures forall n :: n in rows ==> r.minId.value <= n.id <= r.maxId.value
    {
      var m := GetNodesMinAndMax();
      assert |rows| > 0 ==> rows[0].id == Ids(rows)[0] && rows[|rows| - 1].id == Ids(rows)[|rows| - 1];
      NodesMinMax(m.total, Some(if m.minId.Some? then m.minId.value else 0), Some(if m.maxId.Some? then m.maxId.value else 0))
    }

    /** `loadNodesInRange`: the ids are decremented before the strict lower
        comparison, so `afterId` itself is included. */
    function LoadNodesInRange(afterId: int, endId: int): (r: seq<NodeRef>)
      reads this
      requires Valid()
      ensures forall x :: x in r <==> exists n :: n in rows && NodeRef(n.id, n.address) == x
                                                   && afterId <= n.id <= endId && n.status != Unstaked
      ensures AscendingRefs(r)
    {
      InRange(rows, afterId - 1, endId)
    }

    /** `updateNode`: rows with the address whose stored height is at most
        `lastUpdatedHeight` (the source's default is -1) take the update;
        all others stay as they were. */
    method UpdateNode(address: string, u: NodeUpdate, lastUpdatedHeight: int)
      requires Valid()
      modifies this
      ensures Valid() && relations == old(relations) && nextId == old(nextId)
      ensures |rows| == |old(rows)|
      ensures forall i :: 0 <= i < |rows| ==>
                rows[i] == if old(rows)[i].address == address && old(rows)[i].lastUpdatedHeight <= lastUpdatedHeight
                           then ApplyNodeUpdate(old(rows)[i], u) else old(rows)[i]
      // an update that carries a height at least the guard's never lowers a stored height
      ensures u.lastUpdatedHeight.None? || u.lastUpdatedHeight.value >= lastUpdatedHeight ==>
                forall i :: 0 <= i < |rows| ==> rows[i].lastUpdatedHeight >= old(rows)[i].lastUpdatedHeight
    {
      var i := 0;
      var updated: seq<NodeRow> := [];
      while i < |rows|
        invariant 0 <= i <= |rows| && |updated| == i
        invariant forall j :: 0 <= j < i ==>
                    updated[j] == if rows[j].address == address && rows[j].lastUpdatedHeight <= lastUpdatedHeight
                                  then ApplyNodeUpdate(rows[j], u) else rows[j]
      {
        var n := rows[i];
        if n.address == address && n.lastUpdatedHeight <= lastUpdatedHeight {
          n := ApplyNodeUpdate(n, u);
        }
        updated := updated + [n];
        i := i + 1;
      }
      rows := updated;
    }

    /** `insert`: the nodes are appended under fresh, increasing ids, and
        when a transaction id is given (non-zero, as it is truthy) and
        something was inserted, each inserted node is linked to it once. */
    method Insert(nodes: seq<NewNode>, transactionId: int) returns (inserted: seq<NodeRef>)
      requires Valid()
      modifies this
      ensures Valid()
      ensures |rows| == |old(rows)| + |nodes| && rows[..|old(rows)|] == old(rows)
      ensures forall i :: 0 <= i < |nodes| ==>
                var n := rows[|old(rows)| + i];
                n.address == nodes[i].address && n.status == nodes[i].status
                && n.stakeAmount == nodes[i].stakeAmount && n.lastUpdatedHeight == nodes[i].lastUpdatedHeight
                && n.id >= old(nextId)
      ensures inserted == Refs(rows[|old(rows)|..])
      ensures relations == old(relations) + (if transactionId != 0 && |inserted| > 0 then LinkAll(transactionId, inserted) else [])
    {
      var added: seq<NodeRow> := [];
      var i := 0;
      while i < |nodes|
        invariant 0 <= i <= |nodes| && |added| == i
        invariant rows == old(rows) && relations == old(relations)
        invariant nextId == old(nextId) + i
        invariant forall j :: 0 <= j < i ==>
                    added[j] == NodeRow(old(nextId) + j, nodes[j].address, nodes[j].status, nodes[j].stakeAmount, nodes[j].lastUpdatedHeight)
      {
        added := added + [NodeRow(nextId, nodes[i].address, nodes[i].status, nodes[i].stakeAmount, nodes[i].lastUpdatedHeight)];
        nextId := nextId + 1;
        i := i + 1;
      }
      rows := rows + added;
      assert rows[|old(rows)|..] == added;
      inserted := Refs(added);
      if transactionId != 0 && |inserted| > 0 {
        relations := relations + LinkAll(transactionId, inserted);
      }
    }

    /** `updateManyNodeAndLinkToTransaction`: every row whose address is
        listed takes the update, with no height check, and each such row
        is linked to the transaction once; the listed addresses are
        returned as given. */
    method UpdateManyNodeAndLinkToTransaction(addresses: seq<string>, u: NodeUpdate, transactionId: int)
      returns (r: seq<string>)
      requires Valid()
      modifies this
      ensures Valid() && nextId == old(nextId) && r == addresses
      ensures |rows| == |old(rows)|
      ensures forall i :: 0 <= i < |rows| ==>
                rows[i] == if old(rows)[i].address in addresses then ApplyNodeUpdate(old(rows)[i], u) else old(rows)[i]
      ensures relations == old(relations) + LinkAll(transactionId, Refs(WithAddressIn(rows, addresses)))
    {
      var i := 0;
      var updated: seq<NodeRow> := [];
      while i < |rows|
        invariant 0 <= i <= |rows| && |updated| == i
        invariant forall j :: 0 <= j < i ==>
                    updated[j] == if rows[j].address in addresses then ApplyNodeUpdate(rows[j], u) else rows[j]
      {
        var n := rows[i];
        if n.address in addresses {
          n := ApplyNodeUpdate(n, u);
        }
        updated := updated + [n];
        i := i + 1;
      }
      rows := updated;
      var matched := Refs(WithAddressIn(rows, addresses));
      if |matched| > 0 {
        relations := relations + LinkAll(transactionId, matched);
      }
      r := addresses;
    }
  }

  function Ids(rows: seq<NodeRow>): (r: seq<int>)
    ensures |r| == |rows| && forall i :: 0 <= i < |rows| ==> r[i] == rows[i].id
  {
    if |rows| == 0 then [] else [rows[0].id] + Ids(rows[1..])
  }
}
