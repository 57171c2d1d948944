/** Synchronising the provider's delegator table with the published
    delegator list: each published entry updates the delegator it matches
    (by its identity or one of its former identities) or is inserted
    disabled, and every enabled delegator whose identity the list no
    longer mentions is disabled. The table is a class; the merge changes
    its rows in one transaction and counts its writes. */
module DelegatorSync {
  import opened Common

  datatype Delegator = Delegator(id: int, identity: string, name: string, enabled: bool)

  /** An entry of the published list. */
  datatype CdnDelegator = CdnDelegator(name: string, identity: string, identityHistory: seq<string>)

  datatype Counts = Counts(inserted: nat, updated: nat, disabled: nat)

  /** The identities the list mentions, current or former. */
  function Known(cdn: seq<CdnDelegator>): (s: set<string>)
    ensures forall c :: c in cdn ==> c.identity in s && forall h :: h in c.identityHistory ==> h in s
  {
    if |cdn| == 0 then {}
    else
      var c := cdn[|cdn| - 1];
      Known(cdn[..|cdn| - 1]) + {c.identity} + set h | h in c.identityHistory
  }

  /** The identity-to-delegator map built from the rows as read; a later
      row with the same identity replaces an earlier one. */
  function Snapshot(rows: seq<Delegator>): (m: map<string, Delegator>)
    ensures forall k :: k in m ==> m[k] in rows && m[k].identity == k
  {
    if |rows| == 0 then map[]
    else
      var last := rows[|rows| - 1];
      Snapshot(rows[..|rows| - 1])[last.identity := last]
  }

  /** The candidate identities of an entry: its identity, then its history. */
  function PossibleIds(c: CdnDelegator): seq<string>
  {
    [c.identity] + c.identityHistory
  }

  /** The first candidate identity found in the snapshot. */
  function FirstFound(ids: seq<string>, snapshot: map<string, Delegator>): (r: Option<Delegator>)
    ensures r.Some? ==> exists k :: k in ids && k in snapshot && snapshot[k] == r.value
    ensures r.None? ==> forall k :: k in ids ==> k !in snapshot
  {
    if |ids| == 0 then None
    else if ids[0] in snapshot then Some(snapshot[ids[0]])
    else
      var r := FirstFound(ids[1..], snapshot);
      assert forall k :: k in ids ==> k == ids[0] || k in ids[1..];
      r
  }

  /** The match is the row of the first candidate that has one: every
      earlier candidate has none. */
  lemma {:induction false} FirstFoundIsFirst(ids: seq<string>, snapshot: map<string, Delegator>)
    ensures var r := FirstFound(ids, snapshot);
            r.Some? ==> exists i :: 0 <= i < |ids| && ids[i] in snapshot && r.value == snapshot[ids[i]]
                                    && forall j :: 0 <= j < i ==> ids[j] !in snapshot
  {
    if |ids| > 0 && ids[0] !in snapshot {
      FirstFoundIsFirst(ids[1..], snapshot);
      var r := FirstFound(ids[1..], snapshot);
      if r.Some? {
        var i :| 0 <= i < |ids[1..]| && ids[1..][i] in snapshot && r.value == snapshot[ids[1..][i]]
                 && forall j :: 0 <= j < i ==> ids[1..][j] !in snapshot;
        assert ids[i + 1] == ids[1..][i];
        assert forall j :: 1 <= j < i + 1 ==> ids[j] == ids[1..][j - 1];
      }
    }
  }

  /** The row an entry matches: the one under its current identity if there
      is one, else the first of its former identities that has a row. */
  function Match(c: CdnDelegator, snapshot: map<string, Delegator>): (r: Option<Delegator>)
    ensures c.identity in snapshot ==> r == Some(snapshot[c.identity])
    ensures c.identity !in snapshot ==> r == FirstFound(c.identityHistory, snapshot)
  {
    assert PossibleIds(c)[1..] == c.identityHistory;
    FirstFound(PossibleIds(c), snapshot)
  }

  /** The matched delegator differs from the entry in identity or name. */
  predicate Changes(c: CdnDelegator, m: Delegator)
  {
    m.identity != c.identity || m.name != c.name
  }

  /** An entry matches nothing exactly when neither its identity nor any
      former one has a row. */
  lemma MatchNone(c: CdnDelegator, snapshot: map<string, Delegator>)
    ensures Match(c, snapshot).None? <==> c.identity !in snapshot && forall h :: h in c.identityHistory ==> h !in snapshot
  {
  }

  /** An entry whose identity and name are those of a current row writes
      nothing. */
  lemma CurrentEntryUnchanged(c: CdnDelegator, rows: seq<Delegator>)
    requires c.identity in Snapshot(rows) && Snapshot(rows)[c.identity].name == c.name
    ensures Match(c, Snapshot(rows)).Some? && !Changes(c, Match(c, Snapshot(rows)).value)
  {
  }

  /** An entry matched only through a former identity always rewrites the
      row's identity. */
  lemma FormerIdentityChanges(c: CdnDelegator, rows: seq<Delegator>)
    requires c.identity !in Snapshot(rows) && Match(c, Snapshot(rows)).Some?
    ensures Changes(c, Match(c, Snapshot(rows)).value)
    ensures Match(c, Snapshot(rows)).value.identity in c.identityHistory
  {
  }

  /** The entries that match nothing, in list order. */
  function Unmatched(cdn: seq<CdnDelegator>, snapshot: map<string, Delegator>): seq<CdnDelegator>
  {
    if |cdn| == 0 then []
    else
      var c := cdn[|cdn| - 1];
      Unmatched(cdn[..|cdn| - 1], snapshot) + (if Match(c, snapshot).None? then [c] else [])
  }

  /** How many entries rewrite the delegator they match. */
  function ChangedCount(cdn: seq<CdnDelegator>, snapshot: map<string, Delegator>): nat
  {
    if |cdn| == 0 then 0
    else
      var c := cdn[|cdn| - 1];
      var m := Match(c, snapshot);
      ChangedCount(cdn[..|cdn| - 1], snapshot) + (if m.Some? && Changes(c, m.value) then 1 else 0)
  }

  /** A row after the entries have been applied: each entry that matches
      the row's delegator and differs from it writes its identity and name. */
  function Renamed(r: Delegator, cdn: seq<CdnDelegator>, snapshot: map<string, Delegator>): (r': Delegator)
    ensures r'.id == r.id && r'.enabled == r.enabled
  {
    if |cdn| == 0 then r
    else
      var c := cdn[|cdn| - 1];
      var m := Match(c, snapshot);
      var before := Renamed(r, cdn[..|cdn| - 1], snapshot);
      if m.Some? && m.value.id == r.id && Changes(c, m.value) then before.(identity := c.identity, name := c.name)
      else before
  }

  /** Whether the disabling pass acts on this delegator. */
  predicate Stale(d: Delegator, known: set<string>)
  {
    d.identity !in known && d.enabled
  }

  /** How many rows the disabling pass acts on: at most all of them. */
  function StaleCount(rows: seq<Delegator>, known: set<string>): (n: nat)
    ensures n <= |rows|
  {
    if |rows| == 0 then 0
    else StaleCount(rows[..|rows| - 1], known) + (if Stale(rows[|rows| - 1], known) then 1 else 0)
  }

  /** Nothing is disabled exactly when no row is stale. */
  lemma {:induction false} StaleCountZero(rows: seq<Delegator>, known: set<string>)
    ensures StaleCount(rows, known) == 0 <==> forall i :: 0 <= i < |rows| ==> !Stale(rows[i], known)
  {
    if |rows| > 0 {
      var init := rows[..|rows| - 1];
      StaleCountZero(init, known);
      assert forall i :: 0 <= i < |init| ==> init[i] == rows[i];
    }
  }

  function StaleIdentities(rows: seq<Delegator>, known: set<string>): (s: set<string>)
    ensures forall x :: x in s ==> x !in known
    ensures forall d :: d in rows && Stale(d, known) ==> d.identity in s
  {
    if |rows| == 0 then {}
    else
      var d := rows[|rows| - 1];
      assert forall e :: e in rows ==> e in rows[..|rows| - 1] || e == d;
      StaleIdentities(rows[..|rows| - 1], known) + (if Stale(d, known) then {d.identity} else {})
  }

  predicate DistinctIds(rows: seq<Delegator>)
  {
    forall i, j :: 0 <= i < j < |rows| ==> rows[i].id != rows[j].id
  }

  /** The rows the unmatched entries become: fresh ids from `start`, disabled. */
  function NewRows(entries: seq<CdnDelegator>, start: int): (r: seq<Delegator>)
    ensures |r| == |entries|
    ensures forall i :: 0 <= i < |entries| ==>
              r[i] == Delegator(start + i, entries[i].identity, entries[i].name, false)
  {
    if |entries| == 0 then []
    else NewRows(entries[..|entries| - 1], start) + [Delegator(start + |entries| - 1, entries[|entries| - 1].identity, entries[|entries| - 1].name, false)]
  }

  /** A renamed row took the identity of an entry that matched it by one of
      the entry's identities, so its identity before and after are both
      ones the list mentions. */
  lemma {:induction false} RenamedIdentityKnown(r: Delegator, rows: seq<Delegator>, cdn: seq<CdnDelegator>)
    requires r in rows && DistinctIds(rows)
    ensures var r' := Renamed(r, cdn, Snapshot(rows));
            r'.identity == r.identity || (r.identity in Known(cdn) && r'.identity in Known(cdn))
  {
    if |cdn| > 0 {
      var snap := Snapshot(rows);
      var init := cdn[..|cdn| - 1];
      var c := cdn[|cdn| - 1];
      RenamedIdentityKnown(r, rows, init);
      assert Known(init) <= Known(cdn);
      var m := Match(c, snap);
      if m.Some? && m.value.id == r.id && Changes(c, m.value) {
        var k :| k in PossibleIds(c) && k in snap && snap[k] == m.value;
        assert m.value in rows;
        var i :| 0 <= i < |rows| && rows[i] == m.value;
        var j :| 0 <= j < |rows| && rows[j] == r;
        assert i == j;
        assert k == r.identity;
        assert k == c.identity || k in c.identityHistory;
        assert c in cdn;
      }
    }
  }

  /** The rows after writing identity and name into the row(s) with the id. */
  function RenameRows(rows: seq<Delegator>, id: int, identity: string, name: string): (r: seq<Delegator>)
    ensures |r| == |rows|
    ensures forall i :: 0 <= i < |rows| ==>
              r[i] == if rows[i].id == id then rows[i].(identity := identity, name := name) else rows[i]
  {
    if |rows| == 0 then []
    else
      var last := rows[|rows| - 1];
      RenameRows(rows[..|rows| - 1], id, identity, name)
        + [if last.id == id then last.(identity := identity, name := name) else last]
  }

  /** One entry of the first pass: it renames the delegator it matches
      when they differ, is appended disabled under `newId` when it matches
      none, and otherwise changes nothing. */
  function Step(rows: seq<Delegator>, c: CdnDelegator, snapshot: map<string, Delegator>, newId: int): seq<Delegator>
  {
    var m := Match(c, snapshot);
    if m.Some? && Changes(c, m.value) then RenameRows(rows, m.value.id, c.identity, c.name)
    else if m.None? then rows + [Delegator(newId, c.identity, c.name, false)]
    else rows
  }

  /** The rows read, each renamed by the entries that match it. */
  function RenamedAll(start: seq<Delegator>, entries: seq<CdnDelegator>, snapshot: map<string, Delegator>): (r: seq<Delegator>)
    ensures |r| == |start| && forall i :: 0 <= i < |start| ==> r[i] == Renamed(start[i], entries, snapshot)
  {
    seq(|start|, i requires 0 <= i < |start| => Renamed(start[i], entries, snapshot))
  }

  /** The table after the first pass over `entries`: the rows read, each
      renamed by the entries that match it, followed by the unmatched
      entries as new disabled rows in list order, under ids from `startId`. */
  function Merged(start: seq<Delegator>, entries: seq<CdnDelegator>, snapshot: map<string, Delegator>, startId: int): seq<Delegator>
  {
    RenamedAll(start, entries, snapshot) + NewRows(Unmatched(entries, snapshot), startId)
  }

  /** Handling one more entry as the loop does (`Step`, with the next id
      after the entries inserted so far) takes the merge of the earlier
      entries to the merge that includes it. */
  lemma MergedStep(start: seq<Delegator>, init: seq<CdnDelegator>, c: CdnDelegator, snapshot: map<string, Delegator>, startId: int, newId: int,
                    before: seq<Delegator>, next: seq<CdnDelegator>)
    requires forall k :: k in snapshot ==> snapshot[k].id < startId
    requires newId == startId + |Unmatched(init, snapshot)|
    requires before == Merged(start, init, snapshot, startId) && next == init + [c]
    ensures Step(before, c, snapshot, newId) == Merged(start, next, snapshot, startId)
  {
    var m := Match(c, snapshot);
    RenamedAllSnoc(start, init, c, snapshot);
    if m.Some? && Changes(c, m.value) {
      MergedStepRename(start, init, c, snapshot, startId, newId, m.value);
    } else if m.None? {
      MergedStepInsert(start, init, c, snapshot, startId, newId);
    } else {
      MergedStepSkip(start, init, c, snapshot, startId, newId);
    }
  }

  /** One more entry renames each row read that it matches and differs from. */
  lemma RenamedAllSnoc(start: seq<Delegator>, init: seq<CdnDelegator>, c: CdnDelegator, snapshot: map<string, Delegator>)
    ensures var m := Match(c, snapshot);
            var a := RenamedAll(start, init, snapshot);
            var a' := RenamedAll(start, init + [c], snapshot);
            forall i :: 0 <= i < |start| ==>
              a'[i] == if m.Some? && m.value.id == a[i].id && Changes(c, m.value) then a[i].(identity := c.identity, name := c.name) else a[i]
  {
    forall i | 0 <= i < |start| {
      RenamedSnoc(start[i], init, c, snapshot);
    }
  }

  lemma MergedStepRename(start: seq<Delegator>, init: seq<CdnDelegator>, c: CdnDelegator, snapshot: map<string, Delegator>, startId: int,
                         newId: int, matched: Delegator)
    requires forall k :: k in snapshot ==> snapshot[k].id < startId
    requires Match(c, snapshot) == Some(matched) && Changes(c, matched)
    requires var a := RenamedAll(start, init, snapshot);
             var a' := RenamedAll(start, init + [c], snapshot);
             forall i :: 0 <= i < |start| ==>
               a'[i] == if matched.id == a[i].id then a[i].(identity := c.identity, name := c.name) else a[i]
    requires newId == startId + |Unmatched(init, snapshot)|
    ensures Step(Merged(start, init, snapshot, startId), c, snapshot, newId) == Merged(start, init + [c], snapshot, startId)
  {
    var entries := init + [c];
    assert entries[..|entries| - 1] == init;
    var a := RenamedAll(start, init, snapshot);
    var a' := RenamedAll(start, entries, snapshot);
    var u := Unmatched(init, snapshot);
    var b := NewRows(u, startId);
    assert Unmatched(entries, snapshot) == u;
    assert Step(a + b, c, snapshot, newId) == RenameRows(a + b, matched.id, c.identity, c.name);
    RenameMerged(a, a', b, matched.id, c.identity, c.name, startId);
  }

  lemma MergedStepInsert(start: seq<Delegator>, init: seq<CdnDelegator>, c: CdnDelegator, snapshot: map<string, Delegator>, startId: int, newId: int)
    requires Match(c, snapshot).None?
    requires RenamedAll(start, init + [c], snapshot) == RenamedAll(start, init, snapshot)
    requires newId == startId + |Unmatched(init, snapshot)|
    ensures Step(Merged(start, init, snapshot, startId), c, snapshot, newId) == Merged(start, init + [c], snapshot, startId)
  {
    var entries := init + [c];
    assert entries[..|entries| - 1] == init;
    var a := RenamedAll(start, init, snapshot);
    var u := Unmatched(init, snapshot);
    var b := NewRows(u, startId);
    assert Unmatched(entries, snapshot) == u + [c];
    assert Step(a + b, c, snapshot, newId) == a + (b + [Delegator(startId + |u|, c.identity, c.name, false)]);
    NewRowsSnoc(u, c, startId);
  }

  lemma MergedStepSkip(start: seq<Delegator>, init: seq<CdnDelegator>, c: CdnDelegator, snapshot: map<string, Delegator>, startId: int, newId: int)
    requires Match(c, snapshot).Some? && !Changes(c, Match(c, snapshot).value)
    requires RenamedAll(start, init + [c], snapshot) == RenamedAll(start, init, snapshot)
    requires newId == startId + |Unmatched(init, snapshot)|
    ensures Step(Merged(start, init, snapshot, startId), c, snapshot, newId) == Merged(start, init + [c], snapshot, startId)
  {
    var entries := init + [c];
    assert entries[..|entries| - 1] == init;
    assert Unmatched(entries, snapshot) == Unmatched(init, snapshot);
  }

  /** Renaming an id below `startId` touches only the renamed rows read. */
  lemma RenameMerged(a: seq<Delegator>, a': seq<Delegator>, b: seq<Delegator>, id: int, identity: string, name: string, startId: int)
    requires |a'| == |a| && id < startId
    requires forall i :: 0 <= i < |a| ==> a'[i] == if a[i].id == id then a[i].(identity := identity, name := name) else a[i]
    requires forall j :: 0 <= j < |b| ==> b[j].id >= startId
    ensures RenameRows(a + b, id, identity, name) == a' + b
  {
    var r := RenameRows(a + b, id, identity, name);
    forall i | 0 <= i < |r| ensures r[i] == (a' + b)[i] {
      if i >= |a| {
        assert (a + b)[i] == b[i - |a|];
      }
    }
  }

  lemma NewRowsSnoc(entries: seq<CdnDelegator>, c: CdnDelegator, start: int)
    ensures NewRows(entries + [c], start) == NewRows(entries, start) + [Delegator(start + |entries|, c.identity, c.name, false)]
  {
    assert (entries + [c])[..|entries|] == entries;
  }

  class DelegatorTable {
    var rows: seq<Delegator>
    var nextId: int

    /** Ids are distinct and below the next id to hand out. */
    ghost predicate Valid()
      reads this
    {
      DistinctIds(rows) && forall i :: 0 <= i < |rows| ==> rows[i].id < nextId
    }

    constructor()
      ensures Valid() && rows == []
    {
      rows, nextId := [], 0;
    }

    /** Writes the entry's identity and name into the row with the id. */
    method Rename(id: int, identity: string, name: string)
      requires Valid()
      modifies this
      ensures Valid()
      ensures nextId == old(nextId) && rows == RenameRows(old(rows), id, identity, name)
    {
      var i := 0;
      var updated: seq<Delegator> := [];
      while i < |rows|
        invariant 0 <= i <= |rows| && |updated| == i
        invariant forall j :: 0 <= j < i ==>
                    updated[j] == if rows[j].id == id then rows[j].(identity := identity, name := name) else rows[j]
      {
        updated := updated + [if rows[i].id == id then rows[i].(identity := identity, name := name) else rows[i]];
        i := i + 1;
      }
      rows := updated;
    }

    /** Appends a disabled delegator under a fresh id. */
    method InsertDisabled(identity: string, name: string)
      requires Valid()
      modifies this
      ensures Valid()
      ensures nextId == old(nextId) + 1
      ensures rows == old(rows) + [Delegator(old(nextId), identity, name, false)]
    {
      rows := rows + [Delegator(nextId, identity, name, false)];
      nextId := nextId + 1;
    }

    /** Disables every row with the identity. */
    method DisableIdentity(identity: string)
      requires Valid()
      modifies this
      ensures Valid()
      ensures nextId == old(nextId) && |rows| == |old(rows)|
      ensures forall i :: 0 <= i < |rows| ==>
                rows[i] == if old(rows)[i].identity == identity then old(rows)[i].(enabled := false) else old(rows)[i]
    {
      var i := 0;
      var updated: seq<Delegator> := [];
      while i < |rows|
        invariant 0 <= i <= |rows| && |updated| == i
        invariant forall j :: 0 <= j < i ==>
                    updated[j] == if rows[j].identity == identity then rows[j].(enabled := false) else rows[j]
      {
        updated := updated + [if rows[i].identity == identity then rows[i].(enabled := false) else rows[i]];
        i := i + 1;
      }
      rows := updated;
    }
  }

  /** The first pass: each entry renames the delegator it matches when
      they differ, or is inserted disabled when it matches none. */
  method ApplyEntries(table: DelegatorTable, cdn: seq<CdnDelegator>, snapshot: map<string, Delegator>)
    returns (inserted: nat, updated: nat)
    requires table.Valid() && snapshot == Snapshot(table.rows)
    modifies table
    ensures table.Valid() && table.nextId == old(table.nextId) + inserted
    ensures inserted == |Unmatched(cdn, snapshot)| && updated == ChangedCount(cdn, snapshot)
    ensures table.rows == Merged(old(table.rows), cdn, snapshot, old(table.nextId))
  {
    ghost var start := table.rows;
    ghost var startId := table.nextId;
    SnapshotIdsBelow(start, startId);
    assert RenamedAll(start, [], snapshot) == start;
    inserted, updated := 0, 0;
    var k := 0;
    ghost var done: seq<CdnDelegator> := [];
    while k < |cdn|
      invariant 0 <= k <= |cdn| && done == cdn[..k]
      invariant inserted == |Unmatched(done, snapshot)| && updated == ChangedCount(done, snapshot)
      invariant table.Valid() && table.nextId == startId + inserted
      invariant table.rows == Merged(start, done, snapshot, startId)
    {
      var c := cdn[k];
      var m := Match(c, snapshot);
      ghost var next := cdn[..k + 1];
      ghost var before := table.rows;
      CountsStep(cdn, k, done, next, c, snapshot);
      MergedStep(start, done, c, snapshot, startId, table.nextId, before, next);
      ghost var after := Step(before, c, snapshot, table.nextId);
      if m.Some? && Changes(c, m.value) {
        table.Rename(m.value.id, c.identity, c.name);
        updated := updated + 1;
      } else if m.None? {
        table.InsertDisabled(c.identity, c.name);
        inserted := inserted + 1;
      }
      assert table.rows == after;
      k, done := k + 1, next;
    }
    assert done == cdn;
  }

  /** Extending the entries handled so far by the next one. */
  lemma CountsStep(cdn: seq<CdnDelegator>, k: nat, done: seq<CdnDelegator>, next: seq<CdnDelegator>, c: CdnDelegator,
                   snapshot: map<string, Delegator>)
    requires k < |cdn| && done == cdn[..k] && next == cdn[..k + 1] && c == cdn[k]
    ensures next == done + [c]
    ensures var m := Match(c, snapshot);
            && |Unmatched(next, snapshot)| == |Unmatched(done, snapshot)| + (if m.None? then 1 else 0)
            && ChangedCount(next, snapshot) == ChangedCount(done, snapshot) + (if m.Some? && Changes(c, m.value) then 1 else 0)
  {
    assert next[..k] == done;
  }

  /** The second pass: for each delegator as read that is enabled and
      whose identity the list does not mention, every row with that
      identity is disabled. */
  method DisableStale(table: DelegatorTable, current: seq<Delegator>, known: set<string>) returns (disabled: nat)
    requires table.Valid()
    modifies table
    ensures table.Valid()
    ensures disabled == StaleCount(current, known)
    ensures |table.rows| == |old(table.rows)| && table.nextId == old(table.nextId)
    ensures forall i :: 0 <= i < |table.rows| ==>
              table.rows[i] == old(table.rows)[i].(enabled := old(table.rows)[i].enabled
                                                  && old(table.rows)[i].identity !in StaleIdentities(current, known))
  {
    ghost var merged := table.rows;
    ghost var staleSoFar: set<string> := {};
    disabled := 0;
    var k := 0;
    while k < |current|
      invariant 0 <= k <= |current|
      invariant disabled == StaleCount(current[..k], known)
      invariant staleSoFar == StaleIdentities(current[..k], known)
      invariant table.Valid() && |table.rows| == |merged| && table.nextId == old(table.nextId)
      invariant forall i :: 0 <= i < |merged| ==>
                  table.rows[i] == merged[i].(enabled := merged[i].enabled && merged[i].identity !in staleSoFar)
    {
      var d := current[k];
      assert current[..k + 1][..k] == current[..k] && current[..k + 1][k] == d;
      if d.identity !in known && d.enabled {
        table.DisableIdentity(d.identity);
        disabled := disabled + 1;
      }
      staleSoFar := staleSoFar + (if Stale(d, known) then {d.identity} else {});
      k := k + 1;
    }
    assert current[..|current|] == current;
  }

  /** The merge of the published list `cdn` into the table, as one
      transaction; the delegators as read before it are the table's rows. */
  method UpdateDelegatorsFromSource(table: DelegatorTable, cdn: seq<CdnDelegator>) returns (counts: Counts)
    requires table.Valid()
    modifies table
    ensures table.Valid() && table.nextId == old(table.nextId) + counts.inserted
    ensures var snap := Snapshot(old(table.rows));
            var known := Known(cdn);
            var n := |old(table.rows)|;
            && counts.inserted == |Unmatched(cdn, snap)|
            && counts.updated == ChangedCount(cdn, snap)
            && counts.disabled == StaleCount(old(table.rows), known)
            && |table.rows| == n + counts.inserted
            // every delegator read keeps its id, is renamed by the entries matching it,
            // and ends up enabled exactly when it was and the list still mentions it
            && (forall i :: 0 <= i < n ==>
                  table.rows[i] == Renamed(old(table.rows)[i], cdn, snap).(enabled := old(table.rows)[i].enabled && old(table.rows)[i].identity in known))
            // the unmatched entries are appended, disabled, in list order
            && table.rows[n..] == NewRows(Unmatched(cdn, snap), old(table.nextId))
  {
    ghost var start := table.rows;
    var current := table.rows;
    var snapshot := Snapshot(current);
    var known := Known(cdn);
    var inserted, updated := ApplyEntries(table, cdn, snapshot);
    ghost var merged := table.rows;
    ghost var unmatched := Unmatched(cdn, snapshot);
    ghost var appended := NewRows(unmatched, old(table.nextId));
    ghost var renamed := RenamedAll(start, cdn, snapshot);
    assert merged == renamed + appended;
    var disabled := DisableStale(table, current, known);
    counts := Counts(inserted, updated, disabled);
    DisabledAfterMerge(start, cdn, renamed, appended, StaleIdentities(current, known), merged, table.rows);
    AppendedStayDisabled(renamed, appended, StaleIdentities(current, known), merged, table.rows);
  }

  /** The disabling pass after the merge, on the rows read: each ends up
      renamed, and enabled exactly when it was and its identity is
      published. */
  lemma DisabledAfterMerge(start: seq<Delegator>, cdn: seq<CdnDelegator>, renamed: seq<Delegator>, appended: seq<Delegator>,
                           stale: set<string>, merged: seq<Delegator>, final: seq<Delegator>)
    requires DistinctIds(start)
    requires renamed == RenamedAll(start, cdn, Snapshot(start))
    requires stale == StaleIdentities(start, Known(cdn))
    requires merged == renamed + appended && |final| == |merged|
    requires forall i :: 0 <= i < |final| ==> final[i] == merged[i].(enabled := merged[i].enabled && merged[i].identity !in stale)
    ensures forall i :: 0 <= i < |start| ==>
              final[i] == renamed[i].(enabled := start[i].enabled && start[i].identity in Known(cdn))
  {
    forall i | 0 <= i < |start|
      ensures final[i] == renamed[i].(enabled := start[i].enabled && start[i].identity in Known(cdn))
    {
      assert merged[i] == renamed[i];
      DisabledRow(start, cdn, i);
    }
  }

  /** The disabling pass leaves the appended rows, inserted disabled, as
      they are. */
  lemma AppendedStayDisabled(renamed: seq<Delegator>, appended: seq<Delegator>, stale: set<string>,
                             merged: seq<Delegator>, final: seq<Delegator>)
    requires forall j :: 0 <= j < |appended| ==> !appended[j].enabled
    requires merged == renamed + appended && |final| == |merged|
    requires forall i :: 0 <= i < |final| ==> final[i] == merged[i].(enabled := merged[i].enabled && merged[i].identity !in stale)
    ensures final[|renamed|..] == appended
  {
    forall j | 0 <= j < |appended|
      ensures final[|renamed|..][j] == appended[j]
    {
      assert merged[|renamed| + j] == appended[j];
      assert final[|renamed|..][j] == final[|renamed| + j];
    }
  }

  /** One row read: renaming keeps it enabled as it was, and the disabling
      pass turns it off exactly when its identity is not published. */
  lemma DisabledRow(start: seq<Delegator>, cdn: seq<CdnDelegator>, i: int)
    requires DistinctIds(start) && 0 <= i < |start|
    ensures var m := Renamed(start[i], cdn, Snapshot(start));
            m.(enabled := m.enabled && m.identity !in StaleIdentities(start, Known(cdn)))
              == m.(enabled := start[i].enabled && start[i].identity in Known(cdn))
  {
    var known := Known(cdn);
    assert start[i] in start;
    RenamedIdentityKnown(start[i], start, cdn);
    if start[i].enabled && start[i].identity !in known {
      assert Stale(start[i], known);
    }
  }

  /** The snapshot holds rows of the table, so their ids are below any bound on the table's. */
  lemma SnapshotIdsBelow(rows: seq<Delegator>, bound: int)
    requires forall i :: 0 <= i < |rows| ==> rows[i].id < bound
    ensures forall k :: k in Snapshot(rows) ==> Snapshot(rows)[k].id < bound
  {
    forall k | k in Snapshot(rows) ensures Snapshot(rows)[k].id < bound {
      assert Snapshot(rows)[k] in rows;
    }
  }

  /** Applying one more entry to a row. */
  lemma RenamedSnoc(r: Delegator, pre: seq<CdnDelegator>, c: CdnDelegator, snapshot: map<string, Delegator>)
    ensures var m := Match(c, snapshot);
            Renamed(r, pre + [c], snapshot) ==
              if m.Some? && m.value.id == r.id && Changes(c, m.value) then Renamed(r, pre, snapshot).(identity := c.identity, name := c.name)
              else Renamed(r, pre, snapshot)
  {
    assert (pre + [c])[..|pre|] == pre;
  }

  /** Every unmatched entry's identity is one the list mentions. */
  lemma {:induction false} UnmatchedKnown(cdn: seq<CdnDelegator>, snapshot: map<string, Delegator>, e: CdnDelegator)
    requires e in Unmatched(cdn, snapshot)
    ensures e.identity in Known(cdn)
  {
    if |cdn| > 0 {
      var init := cdn[..|cdn| - 1];
      if e in Unmatched(init, snapshot) {
        UnmatchedKnown(init, snapshot, e);
        assert Known(init) <= Known(cdn);
      } else {
        assert e == cdn[|cdn| - 1];
      }
    }
  }
}
