/** Building a supplier's service configuration: the scheme and URL token
    of each RPC type, `{placeholder}` interpolation of endpoint URLs, the
    services active for a supplier at a height, and the services (with
    their revenue shares) an address group expects a key to be staked with. */
module ServiceConfig {
  import opened Common
  import opened Strings
  import opened ProviderModel

  /** `getSchemeForRpcType`. */
  function SchemeFor(t: RpcType): string
  {
    match t
    case JsonRpc => "https"
    case Rest => "https"
    case Grpc => "grpcs"
    case Websocket => "wss"
    case _ => "https"
  }

  /** `getUrlTokenFromRpcType`. */
  function TokenFor(t: RpcType): string
  {
    match t
    case JsonRpc => "json"
    case Rest => "rest"
    case Grpc => "grpc"
    case Websocket => "ws"
    case _ => "json"
  }

  /** The two maps agree: the scheme is the secure scheme of the token's
      transport, and every type the maps do not name is read as JSON over
      https. */
  lemma SchemeFollowsToken(t: RpcType)
    ensures TokenFor(t) in {"json", "rest", "grpc", "ws"}
    ensures SchemeFor(t) == (if TokenFor(t) == "grpc" then "grpcs" else if TokenFor(t) == "ws" then "wss" else "https")
    ensures t !in {JsonRpc, Rest, Grpc, Websocket} ==> SchemeFor(t) == "https" && TokenFor(t) == "json"
  {
  }

  /** The token tells the four named types apart. */
  lemma TokenSeparatesNamedTypes(a: RpcType, b: RpcType)
    requires a in {JsonRpc, Rest, Grpc, Websocket} && b in {JsonRpc, Rest, Grpc, Websocket}
    requires TokenFor(a) == TokenFor(b)
    ensures a == b
  {
  }

  /** The length of the run of `\w` characters that starts `s`. */
  function WordRun(s: string): (n: nat)
    ensures n <= |s|
    ensures forall i :: 0 <= i < n ==> IsWordChar(s[i])
    ensures n < |s| ==> !IsWordChar(s[n])
  {
    if |s| > 0 && IsWordChar(s[0]) then 1 + WordRun(s[1..]) else 0
  }

  /** A placeholder name: one or more `\w` characters. */
  predicate IsWordKey(key: string)
  {
    |key| > 0 && forall i :: 0 <= i < |key| ==> IsWordChar(key[i])
  }

  /** What a placeholder is replaced with (`data[key] || `{${key}}``, with
      `data` an object literal): its own value when present and non-empty;
      for a name the lookup finds on `Object.prototype`, that inherited
      member as text; otherwise the placeholder itself. */
  function Substitution(data: map<string, string>, key: string): string
  {
    if key in data then (if data[key] != "" then data[key] else "{" + key + "}")
    else if IsPrototypeMember(key) then InheritedText(key)
    else "{" + key + "}"
  }

  /** The three cases of a substitution; thanks to the `||` fallback the
      replacement is never the empty text. */
  lemma SubstitutionCases(data: map<string, string>, key: string)
    ensures key in data && data[key] != "" ==> Substitution(data, key) == data[key]
    ensures key !in data && IsPrototypeMember(key) ==> Substitution(data, key) == InheritedText(key)
    ensures (key in data && data[key] == "") || (key !in data && !IsPrototypeMember(key)) ==>
              Substitution(data, key) == "{" + key + "}"
    ensures Substitution(data, key) != ""
  {
  }

  /** The text an inherited member turns into when the replacement
      converts it to a string: `Object.prototype` itself for `__proto__`,
      the `Object` constructor for `constructor`, and the native method of
      that name otherwise. */
  function InheritedText(key: string): string
  {
    if key == "__proto__" then "[object Object]"
    else if key == "constructor" then "function Object() { [native code] }"
    else "function " + key + "() { [native code] }"
  }

  /** `url.replace(/{(\w+)}/g, ...)`: scanning from the left, every
      `{word}` is replaced by its substitution and scanning resumes after
      the closing brace; any other character is kept. */
  function Interpolate(url: string, data: map<string, string>): string
    decreases |url|
  {
    if |url| == 0 then ""
    else
      var n := WordRun(url[1..]);
      if url[0] == '{' && n > 0 && n + 1 < |url| && url[n + 1] == '}' then
        Substitution(data, url[1..n + 1]) + Interpolate(url[n + 2..], data)
      else
        [url[0]] + Interpolate(url[1..], data)
  }

  /** Text without an opening brace passes through unchanged. */
  lemma {:induction false} InterpolateLiteral(text: string, rest: string, data: map<string, string>)
    requires '{' !in text
    ensures Interpolate(text + rest, data) == text + Interpolate(rest, data)
    decreases |text|
  {
    if |text| > 0 {
      var url, tail := text + rest, text[1..] + rest;
      assert url == [text[0]] + tail;
      InterpolatePlainChar(text[0], tail, data);
      InterpolateLiteral(text[1..], rest, data);
      assert text == [text[0]] + text[1..];
    } else {
      assert text + rest == rest;
    }
  }

  /** A character other than `{` is copied and scanning goes on after it. */
  lemma InterpolatePlainChar(c: char, tail: string, data: map<string, string>)
    requires c != '{'
    ensures Interpolate([c] + tail, data) == [c] + Interpolate(tail, data)
  {
    assert ([c] + tail)[1..] == tail;
  }

  /** A placeholder is replaced by its own value; a name without one that
      every object inherits is replaced by the inherited member's text;
      any other placeholder, and one whose value is empty, is left
      verbatim; whatever follows is interpolated on its own. */
  lemma InterpolatePlaceholder(key: string, rest: string, data: map<string, string>)
    requires IsWordKey(key)
    ensures Interpolate("{" + key + "}" + rest, data) == Substitution(data, key) + Interpolate(rest, data)
    ensures key in data && data[key] != "" ==>
              Interpolate("{" + key + "}" + rest, data) == data[key] + Interpolate(rest, data)
    ensures key !in data && IsPrototypeMember(key) ==>
              Interpolate("{" + key + "}" + rest, data) == InheritedText(key) + Interpolate(rest, data)
    ensures (key in data && data[key] == "") || (key !in data && !IsPrototypeMember(key)) ==>
              Interpolate("{" + key + "}" + rest, data) == "{" + key + "}" + Interpolate(rest, data)
  {
    var url := "{" + key + "}" + rest;
    assert url[1..] == key + ("}" + rest);
    WordRunOfKey(key, "}" + rest);
    assert url[|key| + 1] == '}';
    assert url[1..|key| + 1] == key;
    assert url[|key| + 2..] == rest;
  }

  lemma {:induction false} WordRunOfKey(key: string, rest: string)
    requires forall i :: 0 <= i < |key| ==> IsWordChar(key[i])
    requires |rest| > 0 && !IsWordChar(rest[0])
    ensures WordRun(key + rest) == |key|
    decreases |key|
  {
    if |key| > 0 {
      assert (key + rest)[1..] == key[1..] + rest;
      WordRunOfKey(key[1..], rest);
    } else {
      assert key + rest == rest;
    }
  }

  /** The values an endpoint URL can refer to besides `{protocol}`. */
  datatype InterpolationParams = InterpolationParams(sid: string, rm: string, region: string, domain: string)

  /** The lookup table of `getEndpointInterpolatedUrl`: the parameters,
      then `protocol`, which overrides a parameter of that name. */
  function InterpolationData(p: InterpolationParams, protocol: string): map<string, string>
  {
    map["sid" := p.sid, "rm" := p.rm, "region" := p.region, "domain" := p.domain, "protocol" := protocol]
  }

  /** `getEndpointInterpolatedUrl`, with the protocol's default URL as a
      parameter: an endpoint without a URL uses the default URL with its
      first `{scheme}` replaced by the type's scheme. */
  function EndpointUrl(e: Endpoint, p: InterpolationParams, defaultUrl: string): string
  {
    var template := if e.url != "" then e.url else ReplaceFirst(defaultUrl, "{scheme}", SchemeFor(e.rpcType));
    Interpolate(template, InterpolationData(p, TokenFor(e.rpcType)))
  }

  /** An endpoint URL without placeholders is used as it is. */
  lemma PlainEndpointUrl(e: Endpoint, p: InterpolationParams, defaultUrl: string)
    requires e.url != "" && '{' !in e.url
    ensures EndpointUrl(e, p, defaultUrl) == e.url
  {
    InterpolateLiteral(e.url, "", InterpolationData(p, TokenFor(e.rpcType)));
    assert e.url + "" == e.url;
  }

  /** `{protocol}` always resolves to the endpoint's URL token. */
  lemma ProtocolPlaceholder(e: Endpoint, p: InterpolationParams, rest: string)
    requires e.url == "{protocol}" + rest
    ensures EndpointUrl(e, p, "") == TokenFor(e.rpcType) + Interpolate(rest, InterpolationData(p, TokenFor(e.rpcType)))
  {
    assert "{protocol}" + rest == "{" + "protocol" + "}" + rest;
    InterpolatePlaceholder("protocol", rest, InterpolationData(p, TokenFor(e.rpcType)));
  }

  /** A URL naming `{constructor}` gets the text of JavaScript's
      `Object` constructor in its place, as the lookup table has no own
      entry of that name. */
  lemma ConstructorPlaceholder(e: Endpoint, p: InterpolationParams, rest: string)
    requires e.url == "{constructor}" + rest
    ensures EndpointUrl(e, p, "")
            == "function Object() { [native code] }" + Interpolate(rest, InterpolationData(p, TokenFor(e.rpcType)))
  {
    assert "{constructor}" + rest == "{" + "constructor" + "}" + rest;
    var data := InterpolationData(p, TokenFor(e.rpcType));
    assert "constructor" !in data;
    InterpolatePlaceholder("constructor", rest, data);
  }

  // ---------------------------------------------------------------------
  // Active services at a height

  /** A history entry schedules the deactivation of `id` after `height`. */
  predicate DeactivatesAfter(u: ServiceConfigUpdate, height: int)
  {
    u.deactivationHeight > height && u.service.Some? && u.service.value.serviceId != ""
  }

  /** Some history entry schedules the removal of `id` after `height`. */
  predicate ScheduledForRemoval(history: seq<ServiceConfigUpdate>, id: string, height: int)
  {
    exists i :: 0 <= i < |history| && DeactivatesAfter(history[i], height) && history[i].service.value.serviceId == id
  }

  /** A history entry's service becomes active after `height` and is not
      removed at or before it. */
  predicate ActivatesAfter(u: ServiceConfigUpdate, height: int)
  {
    u.activationHeight > height && !(u.deactivationHeight != 0 && u.deactivationHeight <= height) && u.service.Some?
  }

  /** The current services not scheduled for removal, in order. */
  function KeptServices(services: seq<ServiceConfig>, history: seq<ServiceConfigUpdate>, height: int): (r: seq<ServiceConfig>)
    ensures |r| <= |services|
    ensures forall i :: 0 <= i < |r| ==> r[i] in services && !ScheduledForRemoval(history, r[i].serviceId, height)
  {
    if |services| == 0 then []
    else
      KeptServices(services[..|services| - 1], history, height)
      + (if ScheduledForRemoval(history, services[|services| - 1].serviceId, height) then [] else [services[|services| - 1]])
  }

  /** The services of the history entries that activate after `height`, in order. */
  function UpcomingServices(history: seq<ServiceConfigUpdate>, height: int): (r: seq<ServiceConfig>)
    ensures |r| <= |history|
  {
    if |history| == 0 then []
    else
      UpcomingServices(history[..|history| - 1], height)
      + (if ActivatesAfter(history[|history| - 1], height) then [history[|history| - 1].service.value] else [])
  }

  /** Kept services are exactly the current services not scheduled for removal. */
  lemma {:induction false} KeptServicesMembers(services: seq<ServiceConfig>, history: seq<ServiceConfigUpdate>, height: int)
    ensures forall c :: c in KeptServices(services, history, height) <==>
                        c in services && !ScheduledForRemoval(history, c.serviceId, height)
  {
    if |services| > 0 {
      KeptServicesMembers(services[..|services| - 1], history, height);
      assert services == services[..|services| - 1] + [services[|services| - 1]];
    }
  }

  /** Upcoming services are exactly the services of activating entries. */
  lemma {:induction false} UpcomingServicesMembers(history: seq<ServiceConfigUpdate>, height: int)
    ensures forall c :: c in UpcomingServices(history, height) <==>
                        exists i :: 0 <= i < |history| && ActivatesAfter(history[i], height) && history[i].service == Some(c)
  {
    if |history| > 0 {
      var init := history[..|history| - 1];
      UpcomingServicesMembers(init, height);
      forall c | c in UpcomingServices(history, height)
        ensures exists i :: 0 <= i < |history| && ActivatesAfter(history[i], height) && history[i].service == Some(c)
      {
        if c in UpcomingServices(init, height) {
          var i :| 0 <= i < |init| && ActivatesAfter(init[i], height) && init[i].service == Some(c);
          assert history[i] == init[i];
        } else {
          assert history[|history| - 1].service == Some(c);
        }
      }
      forall c | exists i :: 0 <= i < |history| && ActivatesAfter(history[i], height) && history[i].service == Some(c)
        ensures c in UpcomingServices(history, height)
      {
        var i :| 0 <= i < |history| && ActivatesAfter(history[i], height) && history[i].service == Some(c);
        if i < |history| - 1 {
          assert init[i] == history[i];
        }
      }
    }
  }

  /** `getSupplierActiveServices`: the current services not scheduled for
      removal, followed by the services scheduled to activate. The source
      collects both into a `Set` of objects; every element is a distinct
      object, so nothing is merged. */
  method GetSupplierActiveServices(s: Supplier, currentHeight: int) returns (result: seq<ServiceConfig>)
    ensures result == KeptServices(s.services, s.serviceConfigHistory, currentHeight)
                      + UpcomingServices(s.serviceConfigHistory, currentHeight)
  {
    var scheduledDeactivations: set<string> := {};
    var i := 0;
    while i < |s.serviceConfigHistory|
      invariant 0 <= i <= |s.serviceConfigHistory|
      invariant forall id :: id in scheduledDeactivations <==>
                  exists j :: 0 <= j < i && DeactivatesAfter(s.serviceConfigHistory[j], currentHeight)
                              && s.serviceConfigHistory[j].service.value.serviceId == id
    {
      var u := s.serviceConfigHistory[i];
      if u.deactivationHeight > currentHeight && u.service.Some? && u.service.value.serviceId != "" {
        scheduledDeactivations := scheduledDeactivations + {u.service.value.serviceId};
      }
      i := i + 1;
    }

    result := [];
    i := 0;
    while i < |s.services|
      invariant 0 <= i <= |s.services|
      invariant result == KeptServices(s.services[..i], s.serviceConfigHistory, currentHeight)
    {
      assert s.services[..i + 1][..i] == s.services[..i];
      if s.services[i].serviceId !in scheduledDeactivations {
        result := result + [s.services[i]];
      }
      i := i + 1;
    }
    assert s.services[..i] == s.services;

    ghost var kept := result;
    i := 0;
    while i < |s.serviceConfigHistory|
      invariant 0 <= i <= |s.serviceConfigHistory|
      invariant result == kept + UpcomingServices(s.serviceConfigHistory[..i], currentHeight)
    {
      var u := s.serviceConfigHistory[i];
      assert s.serviceConfigHistory[..i + 1][..i] == s.serviceConfigHistory[..i];
      var willActivate := u.activationHeight > currentHeight;
      var removedBeforeActivation := u.deactivationHeight != 0 && u.deactivationHeight <= currentHeight;
      if willActivate && !removedBeforeActivation {
        if u.service.Some? {
          result := result + [u.service.value];
        }
      }
      i := i + 1;
    }
    assert s.serviceConfigHistory[..i] == s.serviceConfigHistory;
  }

  /** What the active-service list holds: a current service iff no history
      entry schedules its service id for removal after the height, and the
      service of every history entry that activates after the height. */
  lemma ActiveServicesMembers(s: Supplier, height: int, c: ServiceConfig)
    ensures c in KeptServices(s.services, s.serviceConfigHistory, height) + UpcomingServices(s.serviceConfigHistory, height)
            <==> (c in s.services && !ScheduledForRemoval(s.serviceConfigHistory, c.serviceId, height))
                 || (exists i :: 0 <= i < |s.serviceConfigHistory| && ActivatesAfter(s.serviceConfigHistory[i], height)
                                 && s.serviceConfigHistory[i].service == Some(c))
  {
    KeptServicesMembers(s.services, s.serviceConfigHistory, height);
    UpcomingServicesMembers(s.serviceConfigHistory, height);
  }

  /** The list can hold two configurations of one service id, although
      the function's documentation promises each id once: a current
      service that is not being removed and a pending activation of the
      same id are both kept. */
  lemma ActiveServicesCanRepeatServiceId()
    ensures var svc := ServiceConfig("anvil", [], []);
            var s := Supplier("op", "owner", Some(1), 0, [svc], [ServiceConfigUpdate(Some(svc), 20, 0)]);
            var r := KeptServices(s.services, s.serviceConfigHistory, 10) + UpcomingServices(s.serviceConfigHistory, 10);
            |r| == 2 && r[0].serviceId == r[1].serviceId
  {
    var svc := ServiceConfig("anvil", [], []);
    var history := [ServiceConfigUpdate(Some(svc), 20, 0)];
    assert !ScheduledForRemoval(history, "anvil", 10);
    assert KeptServices([svc], history, 10) == [svc] by {
      assert [svc][..0] == [];
    }
    assert UpcomingServices(history, 10) == [svc] by {
      assert history[..0] == [];
    }
  }

  /** Keeps the first configuration of every service id not in `seen`,
      in order: the documented behaviour of `getSupplierActiveServices`. */
  function FirstPerServiceId(xs: seq<ServiceConfig>, seen: set<string>): (r: seq<ServiceConfig>)
    ensures forall i, j :: 0 <= i < j < |r| ==> r[i].serviceId != r[j].serviceId
    ensures forall i :: 0 <= i < |r| ==> r[i] in xs && r[i].serviceId !in seen
  {
    if |xs| == 0 then []
    else if xs[0].serviceId in seen then FirstPerServiceId(xs[1..], seen)
    else [xs[0]] + FirstPerServiceId(xs[1..], seen + {xs[0].serviceId})
  }

  /** No service id is lost: every id of the input not in `seen` has a
      configuration in the result. */
  lemma {:induction false} FirstPerServiceIdCovers(xs: seq<ServiceConfig>, seen: set<string>, c: ServiceConfig)
    requires c in xs && c.serviceId !in seen
    ensures exists i :: 0 <= i < |FirstPerServiceId(xs, seen)| && FirstPerServiceId(xs, seen)[i].serviceId == c.serviceId
  {
    var r := FirstPerServiceId(xs, seen);
    if xs[0].serviceId in seen {
      FirstPerServiceIdCovers(xs[1..], seen, c);
    } else if c.serviceId == xs[0].serviceId {
      assert r[0].serviceId == c.serviceId;
    } else {
      FirstPerServiceIdCovers(xs[1..], seen + {xs[0].serviceId}, c);
      var rest := FirstPerServiceId(xs[1..], seen + {xs[0].serviceId});
      var i :| 0 <= i < |rest| && rest[i].serviceId == c.serviceId;
      assert r[i + 1] == rest[i];
    }
  }

  /** The active services with each service id once, the first
      configuration of an id winning. */
  function UniqueActiveServices(s: Supplier, height: int): (r: seq<ServiceConfig>)
    ensures forall i, j :: 0 <= i < j < |r| ==> r[i].serviceId != r[j].serviceId
    ensures forall c :: c in r ==> c in KeptServices(s.services, s.serviceConfigHistory, height)
                                        + UpcomingServices(s.serviceConfigHistory, height)
  {
    FirstPerServiceId(KeptServices(s.services, s.serviceConfigHistory, height)
                      + UpcomingServices(s.serviceConfigHistory, height), {})
  }

  /** Every active service id is represented in the de-duplicated list. */
  lemma UniqueActiveServicesCovers(s: Supplier, height: int, c: ServiceConfig)
    requires c in KeptServices(s.services, s.serviceConfigHistory, height) + UpcomingServices(s.serviceConfigHistory, height)
    ensures exists i :: 0 <= i < |UniqueActiveServices(s, height)| && UniqueActiveServices(s, height)[i].serviceId == c.serviceId
  {
    var all := KeptServices(s.services, s.serviceConfigHistory, height) + UpcomingServices(s.serviceConfigHistory, height);
    FirstPerServiceIdCovers(all, {}, c);
    assert UniqueActiveServices(s, height) == FirstPerServiceId(all, {});
  }

  // ---------------------------------------------------------------------
  // Expected services of a key

  /** Sum of the percentages of a revenue-share list. */
  function SharesTotal(xs: seq<RevShare>): int
  {
    if |xs| == 0 then 0 else SharesTotal(xs[..|xs| - 1]) + xs[|xs| - 1].revSharePercentage
  }

  lemma SharesTotalAppend(xs: seq<RevShare>, x: RevShare)
    ensures SharesTotal(xs + [x]) == SharesTotal(xs) + x.revSharePercentage
  {
    assert (xs + [x])[..|xs|] == xs;
  }

  /** The revenue shares configured on the group's service, in order. */
  function RuleShares(rules: seq<RevShareRule>): (r: seq<RevShare>)
    ensures |r| == |rules|
    ensures forall i :: 0 <= i < |rules| ==> r[i] == RevShare(rules[i].address, rules[i].share)
  {
    if |rules| == 0 then [] else RuleShares(rules[..|rules| - 1]) + [RevShare(rules[|rules| - 1].address, rules[|rules| - 1].share)]
  }

  function OrZero(x: Option<int>): int
  {
    if x.Some? then x.value else 0
  }

  /** The shares before the owner's: the delegator's (when the key has a
      delegator rewards address), the supplier's (when the service adds
      one), then the service's configured shares. */
  function FixedShares(k: Key, gs: AddressGroupService): seq<RevShare>
  {
    (if k.delegatorRewardsAddress != "" then [RevShare(k.delegatorRewardsAddress, OrZero(k.delegatorRevSharePercentage))] else [])
    + (if gs.addSupplierShare then [RevShare(k.address, OrZero(gs.supplierShare))] else [])
    + RuleShares(gs.revShare)
  }

  /** The revenue-share list of one expected service: the fixed shares,
      and the owner topping the total up to 100 when it is below 100 and
      the key has an owner address. */
  function ExpectedRevShare(k: Key, gs: AddressGroupService): seq<RevShare>
  {
    var fixed := FixedShares(k, gs);
    if SharesTotal(fixed) < 100 && k.ownerAddress != ""
    then fixed + [RevShare(k.ownerAddress, 100 - SharesTotal(fixed))]
    else fixed
  }

  /** The owner's remainder makes the shares total exactly 100; without it
      the list is the fixed shares alone, which already total 100 or more
      or have no owner to top them up. */
  lemma ExpectedRevShareTotal(k: Key, gs: AddressGroupService)
    ensures var fixed, r := FixedShares(k, gs), ExpectedRevShare(k, gs);
            && (|r| == |fixed| + 1 <==> SharesTotal(fixed) < 100 && k.ownerAddress != "")
            && (|r| == |fixed| + 1 ==> SharesTotal(r) == 100 && r[|r| - 1] == RevShare(k.ownerAddress, 100 - SharesTotal(fixed)))
            && (|r| == |fixed| ==> r == fixed)
  {
    var fixed := FixedShares(k, gs);
    if SharesTotal(fixed) < 100 && k.ownerAddress != "" {
      SharesTotalAppend(fixed, RevShare(k.ownerAddress, 100 - SharesTotal(fixed)));
    }
  }

  /** The list starts with the delegator's share when the key has a
      delegator rewards address, and with the supplier's otherwise when the
      service adds one. */
  lemma ExpectedRevShareOrder(k: Key, gs: AddressGroupService)
    ensures k.delegatorRewardsAddress != "" ==>
              ExpectedRevShare(k, gs)[0] == RevShare(k.delegatorRewardsAddress, OrZero(k.delegatorRevSharePercentage))
    ensures k.delegatorRewardsAddress == "" && gs.addSupplierShare ==>
              ExpectedRevShare(k, gs)[0] == RevShare(k.address, OrZero(gs.supplierShare))
  {
  }

  /** The interpolation values of a key's relay miner, empty when unset. */
  function ParamsFor(k: Key, gs: AddressGroupService): InterpolationParams
    requires k.addressGroup.Some?
  {
    var rm := k.addressGroup.value.relayMiner;
    InterpolationParams(
      gs.serviceId,
      if rm.Some? then rm.value.identity else "",
      if rm.Some? && rm.value.region.Some? then rm.value.region.value.urlValue else "",
      if rm.Some? then rm.value.domain else "")
  }

  /** The service's endpoints with interpolated URLs and no configs. */
  function ExpectedEndpoints(endpoints: seq<Endpoint>, p: InterpolationParams, defaultUrl: string): (r: seq<Endpoint>)
    ensures |r| == |endpoints|
    ensures forall i :: 0 <= i < |r| ==>
              r[i] == Endpoint(EndpointUrl(endpoints[i], p, defaultUrl), endpoints[i].rpcType, [])
  {
    if |endpoints| == 0 then []
    else ExpectedEndpoints(endpoints[..|endpoints| - 1], p, defaultUrl)
         + [Endpoint(EndpointUrl(endpoints[|endpoints| - 1], p, defaultUrl), endpoints[|endpoints| - 1].rpcType, [])]
  }

  /** The expected configuration of one group service. */
  function ExpectedService(k: Key, gs: AddressGroupService, defaultUrl: string): ServiceConfig
    requires k.addressGroup.Some?
  {
    ServiceConfig(gs.serviceId, ExpectedEndpoints(gs.endpoints, ParamsFor(k, gs), defaultUrl), ExpectedRevShare(k, gs))
  }

  /** The loop over a service's configured shares: each one is pushed
      and added to the running total. */
  method PushRuleShares(acc: seq<RevShare>, accSum: int, rules: seq<RevShareRule>)
    returns (revShare: seq<RevShare>, revShareSum: int)
    requires accSum == SharesTotal(acc)
    ensures revShare == acc + RuleShares(rules)
    ensures revShareSum == SharesTotal(revShare)
  {
    revShare, revShareSum := acc, accSum;
    var j := 0;
    while j < |rules|
      invariant 0 <= j <= |rules|
      invariant revShare == acc + RuleShares(rules[..j])
      invariant revShareSum == SharesTotal(revShare)
    {
      var element := rules[j];
      assert rules[..j + 1][..j] == rules[..j];
      SharesTotalAppend(revShare, RevShare(element.address, element.share));
      revShareSum := revShareSum + element.share;
      revShare := revShare + [RevShare(element.address, element.share)];
      j := j + 1;
    }
    assert rules[..j] == rules;
  }

  /** The revenue-share list of one service, accumulated as in the source. */
  method BuildRevShare(k: Key, gs: AddressGroupService) returns (revShare: seq<RevShare>)
    ensures revShare == ExpectedRevShare(k, gs)
  {
    var revShareSum := 0;
    revShare := [];
    if k.delegatorRewardsAddress != "" {
      SharesTotalAppend(revShare, RevShare(k.delegatorRewardsAddress, OrZero(k.delegatorRevSharePercentage)));
      revShareSum := revShareSum + OrZero(k.delegatorRevSharePercentage);
      revShare := revShare + [RevShare(k.delegatorRewardsAddress, OrZero(k.delegatorRevSharePercentage))];
    }
    if gs.addSupplierShare {
      SharesTotalAppend(revShare, RevShare(k.address, OrZero(gs.supplierShare)));
      revShareSum := revShareSum + OrZero(gs.supplierShare);
      revShare := revShare + [RevShare(k.address, OrZero(gs.supplierShare))];
    }
    assert revShareSum == SharesTotal(revShare);
    revShare, revShareSum := PushRuleShares(revShare, revShareSum, gs.revShare);
    assert revShare == FixedShares(k, gs);

    if revShareSum < 100 && k.ownerAddress != "" {
      revShare := revShare + [RevShare(k.ownerAddress, 100 - revShareSum)];
    }
  }

  /** The endpoints of one service with interpolated URLs. */
  method BuildEndpoints(endpoints: seq<Endpoint>, p: InterpolationParams, defaultUrl: string) returns (r: seq<Endpoint>)
    ensures r == ExpectedEndpoints(endpoints, p, defaultUrl)
  {
    r := [];
    var e := 0;
    while e < |endpoints|
      invariant 0 <= e <= |endpoints|
      invariant r == ExpectedEndpoints(endpoints[..e], p, defaultUrl)
    {
      assert endpoints[..e + 1][..e] == endpoints[..e];
      r := r + [Endpoint(EndpointUrl(endpoints[e], p, defaultUrl), endpoints[e].rpcType, [])];
      e := e + 1;
    }
    assert endpoints[..e] == endpoints;
  }

  /** `getExpectedServicesFromKey`: one configuration per service of the
      key's address group, in the group's order. */
  method GetExpectedServicesFromKey(k: Key, defaultUrl: string) returns (expected: seq<ServiceConfig>)
    ensures k.addressGroup.None? ==> expected == []
    ensures k.addressGroup.Some? ==>
              var gss := k.addressGroup.value.addressGroupServices;
              && |expected| == |gss|
              && forall i :: 0 <= i < |gss| ==> expected[i] == ExpectedService(k, gss[i], defaultUrl)
  {
    expected := [];
    if k.addressGroup.None? {
      return;
    }
    var gss := k.addressGroup.value.addressGroupServices;
    var n := 0;
    while n < |gss|
      invariant 0 <= n <= |gss|
      invariant |expected| == n
      invariant forall i :: 0 <= i < n ==> expected[i] == ExpectedService(k, gss[i], defaultUrl)
    {
      var gs := gss[n];
      var revShare := BuildRevShare(k, gs);
      var endpoints := BuildEndpoints(gs.endpoints, ParamsFor(k, gs), defaultUrl);
      expected := expected + [ServiceConfig(gs.serviceId, endpoints, revShare)];
      n := n + 1;
    }
  }
}
