/** `calculateShares`: the average split of a reward between the provider,
    the supplier, the delegator and the client, over the services of an
    address group. Percentages are real numbers. */
module Shares {
  import opened Common

  /** A service: whether the supplier's share is added, that share, and
      the revenue-share percentages (`None` when the service has none). */
  datatype ShareService = ShareService(addSupplierShare: bool, supplierShare: real, revShare: Option<seq<real>>)

  datatype ShareCalculation = ShareCalculation(providerShare: real, supplierShare: real, delegatorShare: real, clientShare: real)

  function SumReal(xs: seq<real>): real
  {
    if |xs| == 0 then 0.0 else SumReal(xs[..|xs| - 1]) + xs[|xs| - 1]
  }

  /** A service's revenue-share total, 0 when it has none. */
  function RevShareTotal(s: ShareService): real
  {
    if s.revShare.Some? then SumReal(s.revShare.value) else 0.0
  }

  function RevShareTotals(services: seq<ShareService>): (r: seq<real>)
    ensures |r| == |services|
    ensures forall i :: 0 <= i < |services| ==> r[i] == RevShareTotal(services[i])
  {
    if |services| == 0 then [] else RevShareTotals(services[..|services| - 1]) + [RevShareTotal(services[|services| - 1])]
  }

  /** The supplier shares of the services that add one, in order. */
  function SupplierShares(services: seq<ShareService>): (r: seq<real>)
    ensures |r| <= |services|
    ensures forall x :: x in r ==> exists s :: s in services && s.addSupplierShare && s.supplierShare == x
    ensures forall s :: s in services && s.addSupplierShare ==> s.supplierShare in r
  {
    if |services| == 0 then []
    else
      var last := services[|services| - 1];
      var rest := SupplierShares(services[..|services| - 1]);
      assert forall s :: s in services[..|services| - 1] ==> s in services;
      rest + (if last.addSupplierShare then [last.supplierShare] else [])
  }

  /** The average of the values, 0 for none: the value that, taken once
      per element, adds up to their sum. */
  function Mean(xs: seq<real>): (r: real)
    ensures |xs| == 0 ==> r == 0.0
    ensures |xs| > 0 ==> r * (|xs| as real) == SumReal(xs)
  {
    if |xs| == 0 then 0.0 else SumReal(xs) / (|xs| as real)
  }

  function Max0(x: real): (r: real)
    ensures r >= 0.0 && r >= x && (r == x || r == 0.0)
  {
    if x > 0.0 then x else 0.0
  }

  function CalculateShares(services: seq<ShareService>, delegatorFee: real): (r: ShareCalculation)
    // the delegator always gets the fee asked for
    ensures r.delegatorShare == delegatorFee
    // with no services, the client gets the rest, unclamped
    ensures |services| == 0 ==> r == ShareCalculation(0.0, 0.0, delegatorFee, 100.0 - delegatorFee)
    // with services, the client's share is what is left, never negative
    ensures |services| > 0 ==>
              && r.clientShare >= 0.0
              && (r.clientShare > 0.0 ==> r.providerShare + r.supplierShare + r.delegatorShare + r.clientShare == 100.0)
              && (r.clientShare == 0.0 ==> r.providerShare + r.supplierShare + r.delegatorShare >= 100.0)
  {
    if |services| == 0 then ShareCalculation(0.0, 0.0, delegatorFee, 100.0 - delegatorFee)
    else
      var provider := Mean(RevShareTotals(services));
      var supplier := Mean(SupplierShares(services));
      ShareCalculation(provider, supplier, delegatorFee, Max0(100.0 - provider - supplier - delegatorFee))
  }

  lemma {:induction false} SumRealBounds(xs: seq<real>, lo: real, hi: real)
    requires forall i :: 0 <= i < |xs| ==> lo <= xs[i] <= hi
    ensures (|xs| as real) * lo <= SumReal(xs) <= (|xs| as real) * hi
  {
    if |xs| > 0 {
      SumRealBounds(xs[..|xs| - 1], lo, hi);
    }
  }

  /** A mean lies between the bounds of what it averages. */
  lemma MeanBounds(xs: seq<real>, lo: real, hi: real)
    requires |xs| > 0 && forall i :: 0 <= i < |xs| ==> lo <= xs[i] <= hi
    ensures lo <= Mean(xs) <= hi
  {
    SumRealBounds(xs, lo, hi);
    var n := |xs| as real;
    assert n * lo <= SumReal(xs) <= n * hi;
    assert SumReal(xs) / n * n == SumReal(xs);
  }

  /** The provider's share is the average of the services' revenue-share
      totals, so it lies within their range; the supplier's share likewise
      within the supplier shares that are added. */
  lemma AveragesWithinBounds(services: seq<ShareService>, delegatorFee: real, lo: real, hi: real)
    requires |services| > 0
    requires forall i :: 0 <= i < |services| ==> lo <= RevShareTotal(services[i]) <= hi
    requires forall i :: 0 <= i < |services| ==> lo <= services[i].supplierShare <= hi
    ensures lo <= CalculateShares(services, delegatorFee).providerShare <= hi
    ensures (exists s :: s in services && s.addSupplierShare) ==> lo <= CalculateShares(services, delegatorFee).supplierShare <= hi
    ensures (forall s :: s in services ==> !s.addSupplierShare) ==> CalculateShares(services, delegatorFee).supplierShare == 0.0
  {
    MeanBounds(RevShareTotals(services), lo, hi);
    var sup := SupplierShares(services);
    if |sup| > 0 {
      forall i | 0 <= i < |sup| ensures lo <= sup[i] <= hi {
        assert sup[i] in sup;
      }
      MeanBounds(sup, lo, hi);
    }
    SupplierSharesNonEmpty(services);
  }

  /** Some service adds the supplier's share exactly when there is a share to average. */
  lemma {:induction false} SupplierSharesNonEmpty(services: seq<ShareService>)
    ensures |SupplierShares(services)| > 0 <==> exists s :: s in services && s.addSupplierShare
  {
    if |services| > 0 {
      var init := services[..|services| - 1];
      SupplierSharesNonEmpty(init);
      assert forall s :: s in services <==> s in init || s == services[|services| - 1];
    }
  }
}
