/** The application-settings form of the provider's setup: a required
    name, an optional support e-mail, and a free-text list of reward
    addresses separated by commas, new lines or other white space. The list
    is accepted when it is empty or when every entry is a POKT address;
    what is submitted is the addresses in the text. */
module RewardAddressForm {
  import opened Strings
  import opened PoktCrypto

  /** The separators of `/[\n,\s]+/`. */
  predicate IsSeparator(c: char)
  {
    c == ',' || c == '\n' || IsJsWhitespace(c)
  }

  datatype FormValues = FormValues(name: string, supportEmail: string, rewardAddresses: string)

  datatype FormIssue = NameRequired | InvalidEmail | NoAddresses | InvalidAddresses

  function Filter(xs: seq<string>, keep: string -> bool): (r: seq<string>)
    ensures |r| <= |xs|
    ensures forall x :: x in r <==> x in xs && keep(x)
  {
    if |xs| == 0 then [] else (if keep(xs[0]) then [xs[0]] else []) + Filter(xs[1..], keep)
  }

  function TrimAll(xs: seq<string>): (r: seq<string>)
    ensures |r| == |xs|
    ensures forall i :: 0 <= i < |xs| ==> r[i] == Trim(xs[i])
  {
    if |xs| == 0 then [] else [Trim(xs[0])] + TrimAll(xs[1..])
  }

  /** The entries the validator reads: the trimmed text split on separator
      runs, each entry trimmed again. */
  function Lines(value: string): (r: seq<string>)
    ensures |r| >= 1
  {
    TrimAll(SplitOnRuns(Trim(value), IsSeparator))
  }

  function Addresses(value: string): seq<string>
  {
    Filter(Lines(value), IsPoktBech32Address)
  }

  /** First refinement: an empty list, or at least one address in it. */
  predicate HasAddresses(value: string)
  {
    value == "" || |Addresses(value)| != 0
  }

  /** Second refinement: an empty list, or every entry an address. */
  predicate AllAddresses(value: string)
  {
    value == "" || |Addresses(value)| == |Lines(value)|
  }

  /** `FormSchema`'s issues, in field order; `isEmail` is the e-mail
      check, applied when an e-mail is given (`None` leaves it out). Both
      refinements run, so a list can carry both issues. */
  function Validate(values: FormValues, isEmail: string -> bool, emailGiven: bool): (issues: seq<FormIssue>)
    ensures NameRequired in issues <==> values.name == ""
    ensures InvalidEmail in issues <==> emailGiven && !isEmail(values.supportEmail)
    ensures NoAddresses in issues <==> !HasAddresses(values.rewardAddresses)
    ensures InvalidAddresses in issues <==> !AllAddresses(values.rewardAddresses)
  {
    Issues(values.name == "", emailGiven && !isEmail(values.supportEmail),
           !HasAddresses(values.rewardAddresses), !AllAddresses(values.rewardAddresses))
  }

  /** The issues raised by each failed check, in field order. */
  function Issues(nameMissing: bool, emailInvalid: bool, noAddresses: bool, invalidAddresses: bool): (issues: seq<FormIssue>)
    ensures NameRequired in issues <==> nameMissing
    ensures InvalidEmail in issues <==> emailInvalid
    ensures NoAddresses in issues <==> noAddresses
    ensures InvalidAddresses in issues <==> invalidAddresses
  {
    (if nameMissing then [NameRequired] else [])
    + (if emailInvalid then [InvalidEmail] else [])
    + (if noAddresses then [NoAddresses] else [])
    + (if invalidAddresses then [InvalidAddresses] else [])
  }

  /** The addresses submitted: the untrimmed text split on separator runs,
      keeping the addresses. */
  function SubmittedAddresses(value: string): (r: seq<string>)
    ensures forall a :: a in r ==> IsPoktBech32Address(a)
  {
    Filter(SplitOnRuns(value, IsSeparator), IsPoktBech32Address)
  }

  /** Entries hold no separator, so trimming them again changes nothing. */
  lemma LinesAreTokens(value: string)
    ensures Lines(value) == SplitOnRuns(Trim(value), IsSeparator)
  {
    var tokens := SplitOnRuns(Trim(value), IsSeparator);
    forall i | 0 <= i < |tokens| ensures Trim(tokens[i]) == tokens[i] {
      TrimNoWhitespace(tokens[i]);
    }
  }

  lemma TrimNoWhitespace(s: string)
    requires forall i :: 0 <= i < |s| ==> !IsSeparator(s[i])
    ensures Trim(s) == s
  {
  }

  /** The empty list passes both refinements. */
  lemma EmptyListAccepted()
    ensures HasAddresses("") && AllAddresses("")
  {
  }

  /** A list passes both refinements exactly when it is empty or every
      entry is an address: the second refinement implies the first. */
  lemma AcceptedIffEveryEntryIsAddress(value: string)
    ensures HasAddresses(value) && AllAddresses(value) <==>
              value == "" || forall i :: 0 <= i < |Lines(value)| ==> IsPoktBech32Address(Lines(value)[i])
  {
    var lines := Lines(value);
    FilterKeepsAllIff(lines, IsPoktBech32Address);
  }

  /** Filtering keeps the length exactly when every element is kept. */
  lemma {:induction false} FilterKeepsAllIff(xs: seq<string>, keep: string -> bool)
    ensures |Filter(xs, keep)| == |xs| <==> forall i :: 0 <= i < |xs| ==> keep(xs[i])
    ensures (forall i :: 0 <= i < |xs| ==> keep(xs[i])) ==> Filter(xs, keep) == xs
  {
    if |xs| > 0 {
      var rest := xs[1..];
      var f := Filter(rest, keep);
      assert Filter(xs, keep) == (if keep(xs[0]) then [xs[0]] else []) + f;
      if keep(xs[0]) {
        FilterKeepsAllIff(rest, keep);
        KeptTail(xs, rest, keep);
        assert xs == [xs[0]] + rest;
      }
    }
  }

  /** With the head kept, every element is kept exactly when every element of the tail is. */
  lemma KeptTail(xs: seq<string>, rest: seq<string>, keep: string -> bool)
    requires |xs| > 0 && rest == xs[1..] && keep(xs[0])
    ensures (forall i :: 0 <= i < |xs| ==> keep(xs[i])) <==> forall i :: 0 <= i < |rest| ==> keep(rest[i])
  {
    if forall i :: 0 <= i < |rest| ==> keep(rest[i]) {
      forall i | 0 <= i < |xs| ensures keep(xs[i]) {
        if i > 0 {
          assert xs[i] == rest[i - 1];
        }
      }
    }
  }

  lemma {:induction false} FilterAppend(xs: seq<string>, ys: seq<string>, keep: string -> bool)
    ensures Filter(xs + ys, keep) == Filter(xs, keep) + Filter(ys, keep)
  {
    if |xs| > 0 {
      assert (xs + ys)[1..] == xs[1..] + ys;
      FilterAppend(xs[1..], ys, keep);
    } else {
      assert xs + ys == ys;
    }
  }

  /** What is submitted is exactly the addresses the validator counted:
      the white space that trimming removes only adds empty entries. */
  lemma SubmittedAreCountedAddresses(value: string)
    ensures SubmittedAddresses(value) == Addresses(value)
  {
    LinesAreTokens(value);
    WithoutLeadingSpace(value);
    WithoutTrailingSpace(TrimStart(value));
  }

  lemma WithoutLeadingSpace(value: string)
    ensures Filter(SplitOnRuns(value, IsSeparator), IsPoktBech32Address)
            == Filter(SplitOnRuns(TrimStart(value), IsSeparator), IsPoktBech32Address)
  {
    var rest := TrimStart(value);
    var lead := value[..|value| - |rest|];
    assert value == lead + rest;
    if |lead| > 0 {
      LeadingSeparators(lead, rest);
    }
  }

  lemma WithoutTrailingSpace(rest: string)
    ensures Filter(SplitOnRuns(rest, IsSeparator), IsPoktBech32Address)
            == Filter(SplitOnRuns(TrimEnd(rest), IsSeparator), IsPoktBech32Address)
  {
    var core := TrimEnd(rest);
    var trail := rest[|core|..];
    assert rest == core + trail;
    if |trail| > 0 {
      TrailingSeparators(core, trail, []);
    }
  }

  /** A leading run of separators adds at most one empty entry. */
  lemma LeadingSeparators(w: string, t: string)
    requires |w| > 0 && forall i :: 0 <= i < |w| ==> IsSeparator(w[i])
    ensures Filter(SplitOnRuns(w + t, IsSeparator), IsPoktBech32Address)
            == Filter(SplitOnRuns(t, IsSeparator), IsPoktBech32Address)
  {
    SkipRunOverSeparators(w, t);
    var after := SplitFrom(SkipRun(t, IsSeparator), IsSeparator, []);
    assert SplitOnRuns(w + t, IsSeparator) == [[]] + after;
    FilterAppend([[]], after, IsPoktBech32Address);
    if |t| > 0 && IsSeparator(t[0]) {
      assert SplitOnRuns(t, IsSeparator) == [[]] + after;
    } else {
      assert SkipRun(t, IsSeparator) == t;
    }
  }

  lemma {:induction false} SkipRunOverSeparators(w: string, t: string)
    requires forall i :: 0 <= i < |w| ==> IsSeparator(w[i])
    ensures SkipRun(w + t, IsSeparator) == SkipRun(t, IsSeparator)
  {
    if |w| > 0 {
      assert (w + t)[1..] == w[1..] + t;
      SkipRunOverSeparators(w[1..], t);
    } else {
      assert w + t == t;
    }
  }

  /** Skipping the leading separators of `t + w` stops inside `t` unless
      `t` is all separators. */
  lemma {:induction false} SkipRunAppend(t: string, w: string)
    ensures SkipRun(t + w, IsSeparator) ==
              if |SkipRun(t, IsSeparator)| > 0 then SkipRun(t, IsSeparator) + w else SkipRun(w, IsSeparator)
  {
    if |t| > 0 && IsSeparator(t[0]) {
      assert (t + w)[1..] == t[1..] + w;
      SkipRunAppend(t[1..], w);
    } else if |t| == 0 {
      assert t + w == w;
    }
  }

  /** A trailing run of separators adds at most one empty entry. */
  lemma {:induction false} TrailingSeparators(t: string, w: string, cur: string)
    requires |w| > 0 && forall i :: 0 <= i < |w| ==> IsSeparator(w[i])
    requires forall i :: 0 <= i < |cur| ==> !IsSeparator(cur[i])
    ensures Filter(SplitFrom(t + w, IsSeparator, cur), IsPoktBech32Address)
            == Filter(SplitFrom(t, IsSeparator, cur), IsPoktBech32Address)
    decreases |t|
  {
    var keep := IsPoktBech32Address;
    var sepRest := SkipRun(w, IsSeparator);
    SkipRunOverSeparators(w, []);
    assert w + [] == w;
    if |t| == 0 {
      assert t + w == w;
      assert SplitFrom(w, IsSeparator, cur) == [cur] + SplitFrom(sepRest, IsSeparator, []);
      assert SplitFrom(sepRest, IsSeparator, []) == [[]];
      FilterAppend([cur], [[]], keep);
    } else if IsSeparator(t[0]) {
      var s := SkipRun(t, IsSeparator);
      SkipRunAppend(t, w);
      assert SplitFrom(t + w, IsSeparator, cur) == [cur] + SplitFrom(SkipRun(t + w, IsSeparator), IsSeparator, []);
      assert SplitFrom(t, IsSeparator, cur) == [cur] + SplitFrom(s, IsSeparator, []);
      FilterAppend([cur], SplitFrom(SkipRun(t + w, IsSeparator), IsSeparator, []), keep);
      FilterAppend([cur], SplitFrom(s, IsSeparator, []), keep);
      if |s| > 0 {
        TrailingSeparators(s, w, []);
      }
    } else {
      assert (t + w)[1..] == t[1..] + w;
      TrailingSeparators(t[1..], w, cur + [t[0]]);
    }
  }

  /** An accepted, non-empty list submits every entry it holds. */
  lemma AcceptedListSubmittedWhole(value: string)
    requires value != "" && HasAddresses(value) && AllAddresses(value)
    ensures SubmittedAddresses(value) == Lines(value)
  {
    SubmittedAreCountedAddresses(value);
    FilterKeepsAllIff(Lines(value), IsPoktBech32Address);
  }
}
