/** The provider's status endpoint: the response a middleman reads to learn
    what the provider offers. Public address groups only; their stakers,
    domains and fees are summarised, and the groups themselves are sent
    with their audit columns removed at every depth. */
module StatusRoute {
  import opened Common

  /** A JSON value as the response serialises it. Object fields keep their
      order; a JavaScript object has no two fields with the same key. */
  datatype Json =
    | JNull
    | JBool(b: bool)
    | JNum(n: int)
    | JStr(s: string)
    | JArr(items: seq<Json>)
    | JObj(fields: seq<Field>)

  datatype Field = Field(key: string, value: Json)

  /** The four audit columns. */
  predicate IsAuditKey(key: string)
  {
    key == "createdAt" || key == "updatedAt" || key == "createdBy" || key == "updatedBy"
  }

  /** The test `AUDIT_FIELDS[key]` as written: an own audit key or an inherited member. */
  predicate SkippedAsWritten(key: string)
  {
    IsAuditKey(key) || IsPrototypeMember(key)
  }

  /** The fields whose key `skip` does not reject, in order. */
  function KeptFields(fields: seq<Field>, skip: string -> bool): (r: seq<Field>)
    ensures forall f :: f in r <==> f in fields && !skip(f.key)
  {
    if |fields| == 0 then []
    else (if skip(fields[0].key) then [] else [fields[0]]) + KeptFields(fields[1..], skip)
  }

  /** The recursive strip: arrays elementwise, objects without the skipped
      keys and with their values stripped, every other value (null
      included) unchanged. */
  function StripWith(v: Json, skip: string -> bool): (r: Json)
    ensures v.JArr? <==> r.JArr?
    ensures v.JObj? <==> r.JObj?
    ensures v.JArr? ==> |r.items| == |v.items|
    ensures !v.JArr? && !v.JObj? ==> r == v
  {
    match v
    case JArr(items) => JArr(seq(|items|, i requires 0 <= i < |items| => StripWith(items[i], skip)))
    case JObj(fields) =>
      var kept := KeptFields(fields, skip);
      JObj(seq(|kept|, i requires 0 <= i < |kept| =>
        assert kept[i] in fields;
        Field(kept[i].key, StripWith(kept[i].value, skip))))
    case _ => v
  }

  /** `stripAuditFields` with only the four audit columns skipped. */
  function StripAuditFields(v: Json): Json
  {
    StripWith(v, IsAuditKey)
  }

  /** `stripAuditFields` as written, where inherited member names are skipped too. */
  function StripAuditFieldsAsWritten(v: Json): Json
  {
    StripWith(v, SkippedAsWritten)
  }

  /** No key that `skip` rejects occurs at any depth. */
  predicate Clean(v: Json, skip: string -> bool)
  {
    match v
    case JArr(items) => forall i :: 0 <= i < |items| ==> Clean(items[i], skip)
    case JObj(fields) => forall i :: 0 <= i < |fields| ==> !skip(fields[i].key) && Clean(fields[i].value, skip)
    case _ => true
  }

  /** Stripping removes every skipped key at every depth. */
  lemma {:induction false} StripIsClean(v: Json, skip: string -> bool)
    ensures Clean(StripWith(v, skip), skip)
  {
    match v
    case JArr(items) =>
      forall i | 0 <= i < |items| ensures Clean(StripWith(v, skip).items[i], skip) {
        StripIsClean(items[i], skip);
      }
    case JObj(fields) =>
      var kept := KeptFields(fields, skip);
      forall i | 0 <= i < |kept|
        ensures !skip(StripWith(v, skip).fields[i].key) && Clean(StripWith(v, skip).fields[i].value, skip)
      {
        assert kept[i] in fields;
        StripIsClean(kept[i].value, skip);
      }
    case _ =>
  }

  /** Nothing is removed from a value that holds no skipped key. */
  lemma {:induction false} StripKeepsClean(v: Json, skip: string -> bool)
    requires Clean(v, skip)
    ensures StripWith(v, skip) == v
  {
    match v
    case JArr(items) =>
      forall i | 0 <= i < |items| ensures StripWith(items[i], skip) == items[i] {
        StripKeepsClean(items[i], skip);
      }
    case JObj(fields) =>
      KeptAllFields(fields, skip);
      forall i | 0 <= i < |fields| ensures StripWith(fields[i].value, skip) == fields[i].value {
        StripKeepsClean(fields[i].value, skip);
      }
    case _ =>
  }

  lemma {:induction false} KeptAllFields(fields: seq<Field>, skip: string -> bool)
    requires forall i :: 0 <= i < |fields| ==> !skip(fields[i].key)
    ensures KeptFields(fields, skip) == fields
  {
    if |fields| > 0 {
      KeptAllFields(fields[1..], skip);
      assert fields == [fields[0]] + fields[1..];
    }
  }

  /** Stripping twice is stripping once. */
  lemma StripIdempotent(v: Json)
    ensures StripAuditFields(StripAuditFields(v)) == StripAuditFields(v)
  {
    StripIsClean(v, IsAuditKey);
    StripKeepsClean(StripAuditFields(v), IsAuditKey);
  }

  /** The audit columns are gone at every depth, and a value without them
      comes back unchanged. */
  lemma StripRemovesExactlyAudit(v: Json)
    ensures Clean(StripAuditFields(v), IsAuditKey)
    ensures Clean(v, IsAuditKey) ==> StripAuditFields(v) == v
  {
    StripIsClean(v, IsAuditKey);
    if Clean(v, IsAuditKey) {
      StripKeepsClean(v, IsAuditKey);
    }
  }

  /** As written, the audit columns and every inherited member name are
      gone at every depth, and a value without such keys comes back
      unchanged. */
  lemma StripAsWrittenRemovesSkipped(v: Json)
    ensures Clean(StripAuditFieldsAsWritten(v), SkippedAsWritten)
    ensures Clean(v, SkippedAsWritten) ==> StripAuditFieldsAsWritten(v) == v
  {
    StripIsClean(v, SkippedAsWritten);
    if Clean(v, SkippedAsWritten) {
      StripKeepsClean(v, SkippedAsWritten);
    }
  }

  /** As written, a field named `constructor` (or any other inherited
      member name) is dropped although it is no audit column. */
  lemma AsWrittenDropsInheritedNames()
    ensures var v := JObj([Field("constructor", JNum(1))]);
            StripAuditFieldsAsWritten(v) == JObj([]) && StripAuditFields(v) == v
  {
    var v := JObj([Field("constructor", JNum(1))]);
    assert SkippedAsWritten("constructor");
    assert KeptFields(v.fields, SkippedAsWritten) == [];
    StripKeepsClean(v, IsAuditKey);
  }

  // ---------------------------------------------------------------------
  // The response

  /** An address group as the route reads it: whether it is private, its
      relay miner's domain (empty when unset), the addresses linked to it,
      the share percentages of each of its services (what the revenue
      share of the service yields for an empty address), and the record
      as it is serialised. */
  datatype StatusGroup = StatusGroup(
    isPrivate: bool,
    domain: string,
    linkedAddresses: seq<string>,
    serviceShares: seq<seq<int>>,
    record: Json)

  datatype FeeType = Fixed | UpTo

  datatype StatusResponse = StatusResponse(
    regions: seq<string>,
    allowedStakers: seq<string>,
    minimumStake: int,
    allowPublicStaking: bool,
    fee: int,
    feeType: FeeType,
    domains: seq<string>,
    healthy: bool,
    addressGroups: seq<Json>,
    rewardAddresses: seq<string>)

  function PublicGroups(groups: seq<StatusGroup>): (r: seq<StatusGroup>)
    ensures forall g :: g in r <==> g in groups && !g.isPrivate
  {
    if |groups| == 0 then []
    else (if groups[0].isPrivate then [] else [groups[0]]) + PublicGroups(groups[1..])
  }

  /** The set domains of the groups, in order. */
  function Domains(groups: seq<StatusGroup>): (r: seq<string>)
    ensures forall d :: d in r <==> d != "" && exists g :: g in groups && g.domain == d
  {
    if |groups| == 0 then []
    else
      var rest := Domains(groups[1..]);
      assert forall g :: g in groups ==> g == groups[0] || g in groups[1..];
      (if groups[0].domain != "" then [groups[0].domain] else []) + rest
  }

  /** `getUniqueDomains`: each set domain once. */
  function UniqueDomains(groups: seq<StatusGroup>): (r: seq<string>)
    ensures NoDuplicates(r)
    ensures forall d :: d in r <==> d != "" && exists g :: g in groups && g.domain == d
  {
    Dedupe(Domains(groups))
  }

  function LinkedAddresses(groups: seq<StatusGroup>): (r: seq<string>)
    ensures forall a :: a in r <==> exists g :: g in groups && a in g.linkedAddresses
  {
    if |groups| == 0 then []
    else
      var rest := LinkedAddresses(groups[1..]);
      assert forall g :: g in groups ==> g == groups[0] || g in groups[1..];
      groups[0].linkedAddresses + rest
  }

  function Flatten(xss: seq<seq<int>>): (r: seq<int>)
    ensures forall x :: x in r <==> exists xs :: xs in xss && x in xs
  {
    if |xss| == 0 then []
    else
      var rest := Flatten(xss[1..]);
      assert forall xs :: xs in xss ==> xs == xss[0] || xs in xss[1..];
      xss[0] + rest
  }

  /** Every share percentage of every service of the groups, in order. */
  function Fees(groups: seq<StatusGroup>): (r: seq<int>)
    ensures forall f :: f in r <==> exists g, s :: g in groups && s in g.serviceShares && f in s
  {
    if |groups| == 0 then []
    else
      var rest := Fees(groups[1..]);
      assert forall g :: g in groups ==> g == groups[0] || g in groups[1..];
      Flatten(groups[0].serviceShares) + rest
  }

  /** `Math.max(...fees)`, or 0 for no fees. */
  function MaxFee(fees: seq<int>): (r: int)
    ensures |fees| == 0 ==> r == 0
    ensures |fees| > 0 ==> r in fees && forall f :: f in fees ==> f <= r
  {
    if |fees| == 0 then 0
    else if |fees| == 1 then fees[0]
    else
      var m := MaxFee(fees[1..]);
      assert forall f :: f in fees ==> f == fees[0] || f in fees[1..];
      if fees[0] >= m then fees[0] else m
  }

  /** Fixed when the fees hold exactly one distinct value. */
  function FeeTypeOf(fees: seq<int>): FeeType
  {
    if |Dedupe(fees)| == 1 then Fixed else UpTo
  }

  /** The fee type is Fixed exactly when there is a fee and every fee equals it. */
  lemma FeeTypeFixedIff(fees: seq<int>)
    ensures FeeTypeOf(fees) == Fixed <==> |fees| > 0 && forall f :: f in fees ==> f == fees[0]
  {
    var d := Dedupe(fees);
    if |fees| > 0 && forall f :: f in fees ==> f == fees[0] {
      DedupeOfConstant([], fees, fees[0]);
      assert [] + d == d;
    }
    if |d| == 1 {
      assert d[0] in fees;
      assert forall f :: f in fees ==> f in d;
    }
  }

  /** Removing repeats from a run of one value leaves that value once, unless it was seen. */
  lemma {:induction false} DedupeOfConstant(seen: seq<int>, xs: seq<int>, c: int)
    requires NoDuplicates(seen) && forall x :: x in xs ==> x == c
    ensures DedupeAfter(seen, xs) == if |xs| == 0 || c in seen then [] else [c]
    decreases |xs|
  {
    if |xs| > 0 {
      assert xs[0] in xs;
      assert xs[0] == c;
      assert forall x :: x in xs[1..] ==> x in xs;
      if c in seen {
        DedupeOfConstant(seen, xs[1..], c);
      } else {
        assert NoDuplicates(seen + [c]) && c in seen + [c];
        DedupeOfConstant(seen + [c], xs[1..], c);
        assert DedupeAfter(seen, xs) == [c] + DedupeAfter(seen + [c], xs[1..]);
      }
    }
  }

  /** The response body of a signed request to a bootstrapped provider:
      `regions` and the settings' minimum stake and reward addresses come in
      as read. */
  function StatusFor(groups: seq<StatusGroup>, regions: seq<string>, minimumStake: int, rewardAddresses: seq<string>): (r: StatusResponse)
    ensures var pub := PublicGroups(groups);
            && r.allowPublicStaking == (exists g :: g in groups && !g.isPrivate)
            && NoDuplicates(r.allowedStakers)
            && (forall a :: a in r.allowedStakers <==> exists g :: g in groups && !g.isPrivate && a in g.linkedAddresses)
            && (forall d :: d in r.domains <==> d != "" && exists g :: g in groups && !g.isPrivate && g.domain == d)
            && |r.addressGroups| == |pub|
            && (forall i :: 0 <= i < |pub| ==> r.addressGroups[i] == StripAuditFieldsAsWritten(pub[i].record))
            && r.fee == MaxFee(Fees(pub)) && r.feeType == FeeTypeOf(Fees(pub))
            && r.healthy
            && r.regions == regions && r.minimumStake == minimumStake && r.rewardAddresses == rewardAddresses
  {
    var pub := PublicGroups(groups);
    assert (exists g :: g in groups && !g.isPrivate) ==> |pub| > 0;
    var fees := Fees(pub);
    StatusResponse(
      regions,
      Dedupe(LinkedAddresses(pub)),
      minimumStake,
      |pub| > 0,
      MaxFee(fees),
      FeeTypeOf(fees),
      UniqueDomains(pub),
      true,
      seq(|pub|, i requires 0 <= i < |pub| => StripAuditFieldsAsWritten(pub[i].record)),
      rewardAddresses)
  }

  /** The fee announced bounds every share a public group's service pays. */
  lemma FeeBoundsShares(groups: seq<StatusGroup>, regions: seq<string>, minimumStake: int, rewardAddresses: seq<string>,
                        g: StatusGroup, shares: seq<int>, f: int)
    requires g in groups && !g.isPrivate && shares in g.serviceShares && f in shares
    ensures f <= StatusFor(groups, regions, minimumStake, rewardAddresses).fee
  {
    assert g in PublicGroups(groups);
    assert f in Fees(PublicGroups(groups));
  }

  /** With no share to collect, the fee is 0 and the fee type UpTo. */
  lemma NoSharesNoFee(groups: seq<StatusGroup>, regions: seq<string>, minimumStake: int, rewardAddresses: seq<string>)
    requires forall g, s :: g in groups && !g.isPrivate && s in g.serviceShares ==> |s| == 0
    ensures var r := StatusFor(groups, regions, minimumStake, rewardAddresses);
            r.fee == 0 && r.feeType == UpTo
  {
    var pub := PublicGroups(groups);
    FeesOfEmptyShares(pub);
    FeeTypeFixedIff(Fees(pub));
  }

  lemma {:induction false} FeesOfEmptyShares(groups: seq<StatusGroup>)
    requires forall g, s :: g in groups && s in g.serviceShares ==> |s| == 0
    ensures Fees(groups) == []
  {
    if |groups| > 0 {
      assert forall g :: g in groups[1..] ==> g in groups;
      FeesOfEmptyShares(groups[1..]);
      FlattenOfEmpty(groups[0].serviceShares);
    }
  }

  lemma {:induction false} FlattenOfEmpty(xss: seq<seq<int>>)
    requires forall xs :: xs in xss ==> |xs| == 0
    ensures Flatten(xss) == []
  {
    if |xss| > 0 {
      assert forall xs :: xs in xss[1..] ==> xs in xss;
      FlattenOfEmpty(xss[1..]);
      assert xss[0] in xss;
    }
  }
}
