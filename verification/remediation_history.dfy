/** Operations on a key's remediation history, which holds at most one
    entry per reason: find by reason, replace-or-append by reason
    (`addOrUpdateRemediationHistory`) and removal of one reason. */
module RemediationHistory {
  import opened Common
  import opened ProviderModel

  /** At most one entry per reason. */
  predicate UniqueReasons(h: seq<RemediationEntry>)
  {
    forall i, j :: 0 <= i < j < |h| ==> h[i].reason != h[j].reason
  }

  /** Whether some entry carries `reason`. */
  predicate HasReason(h: seq<RemediationEntry>, reason: Reason)
  {
    exists i :: 0 <= i < |h| && h[i].reason == reason
  }

  /** The first entry with `reason` (`history.find(rh => rh.reason === reason)`). */
  function FindByReason(h: seq<RemediationEntry>, reason: Reason): (r: Option<RemediationEntry>)
    ensures r.Some? <==> HasReason(h, reason)
    ensures r.Some? ==> r.value in h && r.value.reason == reason
    ensures r.Some? ==> exists i :: 0 <= i < |h| && h[i] == r.value && forall j :: 0 <= j < i ==> h[j].reason != reason
  {
    if |h| == 0 then None
    else if h[0].reason == reason then Some(h[0])
    else
      var r := FindByReason(h[1..], reason);
      assert HasReason(h, reason) ==> HasReason(h[1..], reason) by {
        if HasReason(h, reason) {
          var i :| 0 <= i < |h| && h[i].reason == reason;
          assert h[1..][i - 1].reason == reason;
        }
      }
      assert r.Some? ==> exists i :: 0 <= i < |h| && h[i] == r.value && forall j :: 0 <= j < i ==> h[j].reason != reason by {
        if r.Some? {
          var i :| 0 <= i < |h[1..]| && h[1..][i] == r.value && forall j :: 0 <= j < i ==> h[1..][j].reason != reason;
          assert h[i + 1] == r.value && forall j :: 0 <= j < i + 1 ==> h[j].reason != reason;
        }
      }
      r
  }

  /** Replace the entry with the same reason as `entry`, or append `entry`
      when there is none. */
  function AddOrUpdate(entry: RemediationEntry, h: seq<RemediationEntry>): (r: seq<RemediationEntry>)
    ensures entry in r
    ensures |r| == if HasReason(h, entry.reason) then |h| else |h| + 1
  {
    if |h| == 0 then [entry]
    else if h[0].reason == entry.reason then [entry] + h[1..]
    else
      assert HasReason(h, entry.reason) <==> HasReason(h[1..], entry.reason) by {
        if HasReason(h, entry.reason) {
          var i :| 0 <= i < |h| && h[i].reason == entry.reason;
          assert h[1..][i - 1].reason == entry.reason;
        }
      }
      [h[0]] + AddOrUpdate(entry, h[1..])
  }

  /** Replace-or-append touches only the entry for the new reason: every
      other entry is kept and nothing else is added; with no entry for the
      reason yet, the new entry is appended at the end. */
  lemma {:induction false} AddOrUpdateContents(entry: RemediationEntry, h: seq<RemediationEntry>)
    ensures forall e :: e in AddOrUpdate(entry, h) && e.reason != entry.reason ==> e in h
    ensures forall e :: e in h && e.reason != entry.reason ==> e in AddOrUpdate(entry, h)
    ensures !HasReason(h, entry.reason) ==> AddOrUpdate(entry, h) == h + [entry]
  {
    if |h| > 0 && h[0].reason != entry.reason {
      AddOrUpdateContents(entry, h[1..]);
      assert AddOrUpdate(entry, h) == [h[0]] + AddOrUpdate(entry, h[1..]);
      assert !HasReason(h, entry.reason) ==> !HasReason(h[1..], entry.reason) && h == [h[0]] + h[1..];
    }
  }

  /** Replace-or-append keeps the history at one entry per reason, and the
      entry for the new reason is exactly the one written. */
  lemma {:induction false} AddOrUpdateKeepsUnique(entry: RemediationEntry, h: seq<RemediationEntry>)
    requires UniqueReasons(h)
    ensures UniqueReasons(AddOrUpdate(entry, h))
    ensures forall e :: e in AddOrUpdate(entry, h) && e.reason == entry.reason ==> e == entry
  {
    if |h| > 0 && h[0].reason != entry.reason {
      AddOrUpdateKeepsUnique(entry, h[1..]);
      AddOrUpdateContents(entry, h[1..]);
      var rest := AddOrUpdate(entry, h[1..]);
      assert AddOrUpdate(entry, h) == [h[0]] + rest;
      forall e | e in rest ensures e.reason != h[0].reason {
        if e.reason != entry.reason {
          var i :| 0 <= i < |h[1..]| && h[1..][i] == e;
          assert h[i + 1] == e;
        }
      }
    } else if |h| > 0 {
      assert AddOrUpdate(entry, h) == [entry] + h[1..];
      forall e | e in h[1..] ensures e.reason != entry.reason {
        var i :| 0 <= i < |h[1..]| && h[1..][i] == e;
        assert h[i + 1] == e;
      }
    }
  }

  /** After replace-or-append, a reason is present exactly when it is the
      new entry's reason or was present before. */
  lemma {:induction false} AddOrUpdateHasReason(entry: RemediationEntry, h: seq<RemediationEntry>, reason: Reason)
    ensures HasReason(AddOrUpdate(entry, h), reason) <==> entry.reason == reason || HasReason(h, reason)
  {
    var r := AddOrUpdate(entry, h);
    AddOrUpdateContents(entry, h);
    if entry.reason == reason {
      var i :| 0 <= i < |r| && r[i] == entry;
    } else if HasReason(h, reason) {
      var i :| 0 <= i < |h| && h[i].reason == reason;
      assert h[i] in r;
      var j :| 0 <= j < |r| && r[j] == h[i];
    }
  }

  /** Replacing or appending an entry for one reason leaves the first entry
      of every other reason where it was found. */
  lemma AddOrUpdateKeepsOtherFinds(entry: RemediationEntry, h: seq<RemediationEntry>, reason: Reason)
    requires UniqueReasons(h) && entry.reason != reason
    ensures FindByReason(AddOrUpdate(entry, h), reason) == FindByReason(h, reason)
  {
    AddOrUpdateKeepsUnique(entry, h);
    AddOrUpdateHasReason(entry, h, reason);
    var r := AddOrUpdate(entry, h);
    AddOrUpdateContents(entry, h);
    if HasReason(h, reason) {
      var a := FindByReason(h, reason).value;
      var b := FindByReason(r, reason).value;
      assert a in r;
      assert b in h;
      var i :| 0 <= i < |h| && h[i] == a;
      var j :| 0 <= j < |h| && h[j] == b;
      assert i == j;
    }
  }

  /** The history without entries carrying `reason`; the other entries keep
      their order. */
  function WithoutReason(h: seq<RemediationEntry>, reason: Reason): (r: seq<RemediationEntry>)
    ensures !HasReason(r, reason)
    ensures forall e :: e in r <==> e in h && e.reason != reason
    ensures UniqueReasons(h) ==> UniqueReasons(r)
    ensures |r| <= |h|
  {
    if |h| == 0 then []
    else if h[0].reason == reason then WithoutReason(h[1..], reason)
    else
      var rest := WithoutReason(h[1..], reason);
      assert UniqueReasons(h) ==> forall e :: e in rest ==> e.reason != h[0].reason by {
        if UniqueReasons(h) {
          forall e | e in rest ensures e.reason != h[0].reason {
            var i :| 1 <= i < |h| && h[i] == e;
          }
        }
      }
      [h[0]] + rest
  }

  /** Removing a reason keeps every entry with another reason and so never
      drops an unrelated finding; removing it twice changes nothing more. */
  lemma {:induction false} WithoutReasonIdempotent(h: seq<RemediationEntry>, reason: Reason)
    ensures WithoutReason(WithoutReason(h, reason), reason) == WithoutReason(h, reason)
  {
    if |h| > 0 {
      WithoutReasonIdempotent(h[1..], reason);
    }
  }
}
