/**
 Which provider key an AI proxy request runs on, and which requests are accepted at all.

 The environment, the stored credentials (already decrypted, or failing to decrypt) and the user's
 balance and quota counter are parameters.
 */
module KeySelection {
  import opened Common
  import Text

  datatype KeySource = Platform | User

  /** The exception classes that matter for falling back; everything else is `Internal`. */
  datatype Failure = NotFound | Forbidden | ServiceUnavailable | BadRequest | Internal

  datatype Mode = PlatformOnly | UserKeyOptional | UserKeyRequired | AdminApprovedUserKey | EnterpriseManaged

  datatype Policy = Policy(
    mode: Mode, allowPlatformManaged: bool, allowBringYourOwnKey: bool, allowDirectProviderMode: bool,
    requireAdminApproval: bool, allowVisionOnUserKeys: bool, providers: seq<string>)

  /** Stored credentials by provider; the user's are those of the session's user. */
  datatype Vault = Vault(
    routerAiApiKey: Option<string>, openRouterApiKey: Option<string>,
    platformCredentials: map<string, Result<string, Failure>>, userCredentials: map<string, Result<string, Failure>>)

  datatype KeyMaterial = KeyMaterial(keySource: KeySource, apiKey: string)

  predicate IsDirect(provider: string) {
    provider != "openrouter" && provider != "routerai"
  }

  /** The user's own key may be tried without being asked for. */
  predicate UserKeyAllowed(policy: Policy) {
    policy.allowBringYourOwnKey && !policy.requireAdminApproval
  }

  function AttemptOrder(provider: string, policy: Policy, useOwnKey: Option<bool>): (order: seq<KeySource>)
    ensures 1 <= |order| <= 2 && (|order| == 2 ==> order == [User, Platform])
    ensures User in order <==>
              if useOwnKey.Some? then useOwnKey.value
              else policy.mode == UserKeyRequired || IsDirect(provider) || UserKeyAllowed(policy)
    ensures Platform in order <==>
              if useOwnKey.Some? then !useOwnKey.value
              else && policy.mode != UserKeyRequired && !IsDirect(provider)
                   && (policy.allowPlatformManaged || !UserKeyAllowed(policy))
  {
    if useOwnKey.Some? then [if useOwnKey.value then User else Platform]
    else if policy.mode == UserKeyRequired then [User]
    else if IsDirect(provider) then [User]
    else if !policy.allowPlatformManaged then if UserKeyAllowed(policy) then [User] else [Platform]
    else if UserKeyAllowed(policy) then [User, Platform]
    else [Platform]
  }

  function EnvironmentKey(provider: string, vault: Vault): string {
    var key := if provider == "routerai" then vault.routerAiApiKey
               else if provider == "openrouter" then vault.openRouterApiKey
               else None;
    Text.Trim(key.UnwrapOr(""))
  }

  function ResolvePlatformKey(provider: string, policy: Policy, vault: Vault): Result<string, Failure> {
    if !policy.allowPlatformManaged then Err(Forbidden)
    else if EnvironmentKey(provider, vault) != "" then Ok(EnvironmentKey(provider, vault))
    else if provider in vault.platformCredentials then vault.platformCredentials[provider]
    else Err(if IsDirect(provider) then BadRequest else ServiceUnavailable)
  }

  function ResolveUserKey(provider: string, policy: Policy, vault: Vault): Result<string, Failure> {
    if !UserKeyAllowed(policy) then Err(Forbidden)
    else if provider !in vault.userCredentials then Err(NotFound)
    else vault.userCredentials[provider]
  }

  function ResolveKey(source: KeySource, provider: string, policy: Policy, vault: Vault): Result<string, Failure> {
    match source
    case User => ResolveUserKey(provider, policy, vault)
    case Platform => ResolvePlatformKey(provider, policy, vault)
  }

  predicate CanTryNext(failure: Failure) {
    failure == NotFound || failure == Forbidden || failure == ServiceUnavailable
  }

  datatype Attempt = Attempt(keySource: KeySource, error: Failure)

  // ---------------------------------------------------------------- the first source that resolves

  /** Source `i` of the order is reached: all before it failed, and softly. */
  ghost predicate Reached(order: seq<KeySource>, i: nat, provider: string, policy: Policy, vault: Vault) {
    i < |order| && forall j :: 0 <= j < i ==>
                                 && ResolveKey(order[j], provider, policy, vault).Err?
                                 && CanTryNext(ResolveKey(order[j], provider, policy, vault).error)
  }

  /** The first key in the order of attempts, as a value. */
  function Selected(provider: string, policy: Policy, useOwnKey: Option<bool>, vault: Vault): Result<KeyMaterial, Failure> {
    if IsDirect(provider) && !policy.allowDirectProviderMode then Err(Forbidden)
    else FirstOf(AttemptOrder(provider, policy, useOwnKey), provider, policy, vault)
  }

  function FirstOf(order: seq<KeySource>, provider: string, policy: Policy, vault: Vault): Result<KeyMaterial, Failure>
    requires order != []
  {
    match ResolveKey(order[0], provider, policy, vault)
    case Ok(key) => Ok(KeyMaterial(order[0], key))
    case Err(e) => if CanTryNext(e) && |order| > 1 then FirstOf(order[1..], provider, policy, vault) else Err(e)
  }

  /**
   The source comes from the first key that resolves. Every attempt before it is recorded in order with
   its error, for the log of the fallback; when none resolves, the last recorded error is thrown.
   */
  method ResolveKeyMaterial(provider: string, policy: Policy, useOwnKey: Option<bool>, vault: Vault)
    returns (r: Result<KeyMaterial, Failure>, attempted: seq<Attempt>)
    ensures r == Selected(provider, policy, useOwnKey, vault)
    ensures IsDirect(provider) && !policy.allowDirectProviderMode ==> attempted == []
    ensures var order := AttemptOrder(provider, policy, useOwnKey);
            && |attempted| <= |order|
            && (forall j :: 0 <= j < |attempted| ==>
                  && attempted[j].keySource == order[j]
                  && ResolveKey(order[j], provider, policy, vault) == Err(attempted[j].error))
            && (r.Ok? ==> |attempted| < |order| && order[|attempted|] == r.value.keySource)
            && (r.Err? && attempted != [] ==> attempted[|attempted| - 1].error == r.error)
  {
    attempted := [];
    if IsDirect(provider) && !policy.allowDirectProviderMode {
      return Err(Forbidden), attempted;
    }
    var attemptOrder := AttemptOrder(provider, policy, useOwnKey);
    var index := 0;
    while index < |attemptOrder|
      invariant 0 <= index <= |attemptOrder| && |attempted| == index
      invariant forall j :: 0 <= j < index ==>
                              && attempted[j].keySource == attemptOrder[j]
                              && ResolveKey(attemptOrder[j], provider, policy, vault) == Err(attempted[j].error)
      invariant FirstOf(attemptOrder, provider, policy, vault)
             == if index < |attemptOrder| then FirstOf(attemptOrder[index..], provider, policy, vault)
                else Err(attempted[index - 1].error)
    {
      var keySource := attemptOrder[index];
      var key := ResolveKey(keySource, provider, policy, vault);
      if key.Ok? {
        return Ok(KeyMaterial(keySource, key.value)), attempted;
      }
      attempted := attempted + [Attempt(keySource, key.error)];
      if !CanTryNext(key.error) {
        return Err(key.error), attempted;
      }
      assert attemptOrder[index..][1..] == attemptOrder[index + 1..];
      index := index + 1;
    }
    return Err(attempted[|attempted| - 1].error), attempted;
  }

  /** A source is returned exactly when it is the first in the order to resolve after only soft failures. */
  lemma {:induction false} FirstAfterSoftFailures(order: seq<KeySource>, provider: string, policy: Policy, vault: Vault,
                                                  material: KeyMaterial)
    requires order != []
    ensures FirstOf(order, provider, policy, vault) == Ok(material) <==>
              exists i: nat :: && Reached(order, i, provider, policy, vault)
                               && order[i] == material.keySource
                               && ResolveKey(order[i], provider, policy, vault) == Ok(material.apiKey)
  {
    if |order| > 1 && ResolveKey(order[0], provider, policy, vault).Err? {
      var rest := order[1..];
      FirstAfterSoftFailures(rest, provider, policy, vault, material);
      if CanTryNext(ResolveKey(order[0], provider, policy, vault).error) {
        forall i: nat | Reached(rest, i, provider, policy, vault)
          ensures Reached(order, i + 1, provider, policy, vault) && order[i + 1] == rest[i]
        {
          forall j | 0 <= j < i + 1
            ensures ResolveKey(order[j], provider, policy, vault).Err?
                    && CanTryNext(ResolveKey(order[j], provider, policy, vault).error)
          {
            assert j > 0 ==> order[j] == rest[j - 1];
          }
        }
        forall i: nat | i > 0 && Reached(order, i, provider, policy, vault)
          ensures Reached(rest, i - 1, provider, policy, vault) && order[i] == rest[i - 1]
        {
        }
      }
    }
    assert Reached(order, 0, provider, policy, vault);
  }

  /** What selection comes to, source by source. */
  lemma SelectedSource(provider: string, policy: Policy, useOwnKey: Option<bool>, vault: Vault, key: string)
    requires IsDirect(provider) ==> policy.allowDirectProviderMode
    ensures var order := AttemptOrder(provider, policy, useOwnKey);
            && (Selected(provider, policy, useOwnKey, vault) == Ok(KeyMaterial(User, key)) <==>
                  User in order && ResolveUserKey(provider, policy, vault) == Ok(key))
            && (Selected(provider, policy, useOwnKey, vault) == Ok(KeyMaterial(Platform, key)) <==>
                  && Platform in order && ResolvePlatformKey(provider, policy, vault) == Ok(key)
                  && (User in order ==> ResolveUserKey(provider, policy, vault).Err?
                                        && CanTryNext(ResolveUserKey(provider, policy, vault).error)))
  {
    var order := AttemptOrder(provider, policy, useOwnKey);
    if |order| == 2 {
      assert order[1..] == [Platform];
      assert User in order && Platform in order;
      assert FirstOf([Platform], provider, policy, vault).Ok? <==> ResolvePlatformKey(provider, policy, vault).Ok?;
    } else {
      assert order == [order[0]];
    }
  }

  // ---------------------------------------------------------------- what each source resolves to

  /**
   The platform's key, if the policy allows one: the environment's key of the two router providers without outer
   spaces, and only when that is blank, for any provider, the stored credential.
   */
  lemma PlatformKeyMeaning(provider: string, policy: Policy, vault: Vault)
    ensures var key := ResolvePlatformKey(provider, policy, vault);
            var configured :=
              if provider == "openrouter" && vault.openRouterApiKey.Some? then Text.Trim(vault.openRouterApiKey.value)
              else if provider == "routerai" && vault.routerAiApiKey.Some? then Text.Trim(vault.routerAiApiKey.value)
              else "";
            && (!policy.allowPlatformManaged ==> key == Err(Forbidden))
            && (policy.allowPlatformManaged && configured != "" ==> key == Ok(configured))
            && (policy.allowPlatformManaged && configured == "" ==>
                  if provider in vault.platformCredentials then key == vault.platformCredentials[provider]
                  else if provider == "openrouter" || provider == "routerai" then key == Err(ServiceUnavailable)
                  else key == Err(BadRequest))
  {
    assert "openrouter"[0] == 'o' && "routerai"[0] == 'r';
  }

  /** The user's key, if own keys are allowed and need no approval: the stored credential. */
  lemma UserKeyMeaning(provider: string, policy: Policy, vault: Vault)
    ensures var key := ResolveUserKey(provider, policy, vault);
            if !policy.allowBringYourOwnKey || policy.requireAdminApproval then key == Err(Forbidden)
            else if provider in vault.userCredentials then key == vault.userCredentials[provider]
            else key == Err(NotFound)
  {
  }

  /**
   Falling back, with the choice of the key open on a router provider: a user's key that is missing, refused or
   unavailable makes way for the platform's; one that is broken in another way does not.
   */
  lemma FallbackMeaning(provider: string, policy: Policy, vault: Vault)
    requires provider == "openrouter" || provider == "routerai"
    requires policy.mode != UserKeyRequired && policy.allowPlatformManaged
    requires policy.allowBringYourOwnKey && !policy.requireAdminApproval
    ensures var own, platform := ResolveUserKey(provider, policy, vault), ResolvePlatformKey(provider, policy, vault);
            var selected := Selected(provider, policy, None, vault);
            && (own.Ok? ==> selected == Ok(KeyMaterial(User, own.value)))
            && (own in {Err(NotFound), Err(Forbidden), Err(ServiceUnavailable)} ==>
                  selected == if platform.Ok? then Ok(KeyMaterial(Platform, platform.value)) else Err(platform.error))
            && (own == Err(BadRequest) ==> selected == Err(BadRequest))
            && (own == Err(Internal) ==> selected == Err(Internal))
  {
    var order := AttemptOrder(provider, policy, None);
    assert order == [User, Platform] && order[1..] == [Platform];
    var platform := ResolvePlatformKey(provider, policy, vault);
    assert FirstOf([Platform], provider, policy, vault)
        == if platform.Ok? then Ok(KeyMaterial(Platform, platform.value)) else Err(platform.error);
  }

  /** A provider that is neither router is for the user's key alone, and only where the policy allows direct mode. */
  lemma DirectMeaning(provider: string, policy: Policy, useOwnKey: Option<bool>, vault: Vault)
    requires provider != "openrouter" && provider != "routerai"
    ensures !policy.allowDirectProviderMode ==> Selected(provider, policy, useOwnKey, vault) == Err(Forbidden)
    ensures policy.allowDirectProviderMode && useOwnKey != Some(false) ==>
              Selected(provider, policy, useOwnKey, vault)
              == match ResolveUserKey(provider, policy, vault)
                 case Ok(key) => Ok(KeyMaterial(User, key))
                 case Err(e) => Err(e)
  {
  }

  // ---------------------------------------------------------------- acceptance

  datatype Model = Model(modelId: string, provider: string, capabilityTags: seq<string>)

  datatype Catalog = Catalog(defaultProvider: Option<string>, defaultModel: Option<string>, models: seq<Model>)

  datatype Request = Request(provider: Option<string>, model: Option<string>, useOwnKey: Option<bool>)

  /** `walletRequired` is the connected runtime mode; a missing wallet has balance zero. */
  datatype Account = Account(
    walletRequired: bool, pricingEnabled: bool, userKeysCharged: bool, balance: int,
    quotaLimit: Option<int>, quotaConsumed: int)

  datatype Invocation = Invocation(provider: string, model: Model, keySource: KeySource, apiKey: string)

  predicate SupportsVision(model: Model) {
    "vision" in model.capabilityTags
  }

  const SUPPORTED_PROVIDERS := ["openrouter", "routerai", "openai", "polza"]

  function FindModel(models: seq<Model>, modelId: string): (found: Option<Model>)
    ensures found.Some? ==>
              exists i :: && 0 <= i < |models| && models[i] == found.value && found.value.modelId == modelId
                          && forall j :: 0 <= j < i ==> models[j].modelId != modelId
    ensures found.None? ==> forall m :: m in models ==> m.modelId != modelId
  {
    if models == [] then None
    else if models[0].modelId == modelId then Some(models[0])
    else
      var found := FindModel(models[1..], modelId);
      assert forall i :: 0 < i < |models| ==> models[i] == models[1..][i - 1];
      assert forall i :: 0 <= i < |models| - 1 ==> models[1..][i] == models[i + 1];
      found
  }

  function ChosenProvider(request: Request, catalog: Catalog, policy: Policy): string {
    request.provider.UnwrapOr(
      catalog.defaultProvider.UnwrapOr(if policy.providers != [] then policy.providers[0] else "openrouter"))
  }

  /** The model a request names or falls back to, when it is offered on the chosen provider. */
  function ChosenModel(request: Request, catalog: Catalog, policy: Policy): Option<Model> {
    var provider := ChosenProvider(request, catalog, policy);
    var modelId := if request.model.Some? then request.model else catalog.defaultModel;
    if provider !in policy.providers || modelId.None? || modelId.value == "" then None
    else
      var model := FindModel(catalog.models, modelId.value);
      if model.Some? && model.value.provider == provider then model else None
  }

  predicate WalletBlocks(account: Account, keySource: KeySource, model: Model) {
    && account.walletRequired && account.pricingEnabled
    && (keySource == Platform || account.userKeysCharged)
    && "free" !in model.capabilityTags && account.balance <= 0
  }

  predicate QuotaBlocks(account: Account) {
    account.quotaLimit.Some? && account.quotaConsumed >= account.quotaLimit.value
  }

  /** The decision, gate by gate in the order of the source. */
  function Prepare(request: Request, policy: Policy, catalog: Catalog, vault: Vault, account: Account)
    : Result<Invocation, Failure>
  {
    var provider := ChosenProvider(request, catalog, policy);
    var chosen := ChosenModel(request, catalog, policy);
    if chosen.None? then Err(Forbidden)
    else if provider !in SUPPORTED_PROVIDERS then Err(BadRequest)
    else if IsDirect(provider) && !policy.allowDirectProviderMode then Err(Forbidden)
    else if policy.mode == UserKeyRequired && request.useOwnKey != Some(true) then Err(Forbidden)
    else if request.useOwnKey == Some(true) && SupportsVision(chosen.value) && !policy.allowVisionOnUserKeys then
      Err(Forbidden)
    else
      var material :- Selected(provider, policy, request.useOwnKey, vault);
      if IsDirect(provider) && material.keySource != User then Err(BadRequest)
      else if policy.mode == UserKeyRequired && material.keySource != User then Err(Forbidden)
      else if material.keySource == User && SupportsVision(chosen.value) && !policy.allowVisionOnUserKeys then
        Err(Forbidden)
      else if WalletBlocks(account, material.keySource, chosen.value) then Err(Forbidden)
      else if material.keySource == Platform && QuotaBlocks(account) then Err(Forbidden)
      else Ok(Invocation(provider, chosen.value, material.keySource, material.apiKey))
  }

  /** The provider: as requested, or the catalog's default, or the policy's first, or OpenRouter. */
  lemma ProviderMeaning(request: Request, catalog: Catalog, policy: Policy)
    ensures var provider := ChosenProvider(request, catalog, policy);
            && (request.provider != None ==> Some(provider) == request.provider)
            && (request.provider == None && catalog.defaultProvider != None ==> Some(provider) == catalog.defaultProvider)
            && (request.provider == None && catalog.defaultProvider == None ==>
                  if policy.providers == [] then provider == "openrouter" else policy.providers[..1] == [provider])
  {
  }

  /** The model: the first of the catalog with the requested id, or the default one, if it is on the chosen provider. */
  lemma ModelMeaning(request: Request, catalog: Catalog, policy: Policy, model: Model)
    ensures var provider := ChosenProvider(request, catalog, policy);
            var wanted := if request.model.Some? then request.model.value
                          else if catalog.defaultModel.Some? then catalog.defaultModel.value else "";
            ChosenModel(request, catalog, policy) == Some(model) <==>
              && provider in policy.providers && wanted != "" && model.provider == provider && model.modelId == wanted
              && exists i :: && 0 <= i < |catalog.models| && catalog.models[i] == model
                             && forall j :: 0 <= j < i ==> catalog.models[j].modelId != wanted
  {
  }

  /**
   The two gates after the key is known. A wallet without money stops a request that would be charged: a paid model, in
   connected mode with pricing on, on the platform's key or on a user's key that is charged too. A used-up quota stops
   a request on the platform's key. Nothing else about the account matters.
   */
  lemma GatesMeaning(request: Request, policy: Policy, catalog: Catalog, vault: Vault, account: Account)
    ensures var ungated := Prepare(request, policy, catalog, vault, Account(false, false, false, 0, None, 0));
            var gated := Prepare(request, policy, catalog, vault, account);
            if ungated.Err? then gated == ungated
            else
              var i := ungated.value;
              var poor := && account.walletRequired && account.pricingEnabled && account.balance <= 0
                          && "free" !in i.model.capabilityTags
                          && (i.keySource == Platform || account.userKeysCharged);
              var exhausted := && i.keySource == Platform
                               && account.quotaLimit.Some? && account.quotaLimit.value <= account.quotaConsumed;
              gated == if poor || exhausted then Err(Forbidden) else ungated
  {
  }

  /** Which requests are turned away before any key is looked for, and how. */
  lemma EarlyRefusals(request: Request, policy: Policy, catalog: Catalog, vault: Vault, account: Account)
    ensures var provider, chosen := ChosenProvider(request, catalog, policy), ChosenModel(request, catalog, policy);
            var result := Prepare(request, policy, catalog, vault, account);
            var supported := provider in {"openrouter", "routerai", "openai", "polza"};
            var router := provider in {"openrouter", "routerai"};
            && (chosen == None ==> result == Err(Forbidden))
            && (chosen != None && !supported ==> result == Err(BadRequest))
            && (chosen != None && supported && !router && !policy.allowDirectProviderMode ==> result == Err(Forbidden))
            && (chosen != None && supported && policy.mode == UserKeyRequired && request.useOwnKey != Some(true) ==>
                  result == Err(Forbidden))
            && (chosen != None && supported && request.useOwnKey == Some(true) && !policy.allowVisionOnUserKeys ==>
                  ("vision" in chosen.value.capabilityTags ==> result == Err(Forbidden)))
  {
  }

  /** The promises of the policy that every accepted invocation keeps. */
  ghost predicate Allowed(i: Invocation, request: Request, policy: Policy, catalog: Catalog, account: Account) {
    && (i.keySource == Platform ==> policy.allowPlatformManaged && !QuotaBlocks(account))
    && (i.keySource == User ==> policy.allowBringYourOwnKey && !policy.requireAdminApproval)
    && (IsDirect(i.provider) ==> i.keySource == User && policy.allowDirectProviderMode)
    && (policy.mode == UserKeyRequired ==> i.keySource == User)
    && (i.keySource == User && SupportsVision(i.model) ==> policy.allowVisionOnUserKeys)
    && (request.useOwnKey.Some? ==> (i.keySource == User <==> request.useOwnKey.value))
    && i.provider in policy.providers && i.model in catalog.models && i.model.provider == i.provider
    && !WalletBlocks(account, i.keySource, i.model)
  }

  lemma AcceptedIsAllowed(request: Request, policy: Policy, catalog: Catalog, vault: Vault, account: Account)
    requires Prepare(request, policy, catalog, vault, account).Ok?
    ensures Allowed(Prepare(request, policy, catalog, vault, account).value, request, policy, catalog, account)
  {
    var i := Prepare(request, policy, catalog, vault, account).value;
    SelectedSource(i.provider, policy, request.useOwnKey, vault, i.apiKey);
  }

  /** The invocation on a given source, as the policy's promises alone would have it. */
  ghost predicate Offered(i: Invocation, request: Request, policy: Policy, catalog: Catalog, vault: Vault, account: Account) {
    && i.provider == ChosenProvider(request, catalog, policy) && i.provider in SUPPORTED_PROVIDERS
    && ChosenModel(request, catalog, policy) == Some(i.model)
    && ResolveKey(i.keySource, i.provider, policy, vault) == Ok(i.apiKey)
    && Allowed(i, request, policy, catalog, account)
    && (policy.mode == UserKeyRequired ==> request.useOwnKey == Some(true))
  }

  /**
   An invocation on the user's key is accepted exactly when it is offered. One on the platform's key is
   accepted exactly when it is offered and, with the choice left open, the user's key was not allowed or
   failed softly.
   */
  lemma AcceptedIff(request: Request, policy: Policy, catalog: Catalog, vault: Vault, account: Account, i: Invocation)
    ensures Prepare(request, policy, catalog, vault, account) == Ok(i) <==>
              && Offered(i, request, policy, catalog, vault, account)
              && (i.keySource == Platform && request.useOwnKey.None? && UserKeyAllowed(policy) ==>
                    var own := ResolveUserKey(i.provider, policy, vault);
                    own.Err? && CanTryNext(own.error))
  {
    if Prepare(request, policy, catalog, vault, account) == Ok(i) {
      AcceptedIsAllowed(request, policy, catalog, vault, account);
    }
    if !IsDirect(i.provider) || policy.allowDirectProviderMode {
      SelectedSource(i.provider, policy, request.useOwnKey, vault, i.apiKey);
    }
  }

  /**
   A request that the platform's key would serve can still be refused when the choice is left open: exactly
   when the user's own key is allowed and either resolves but may not be used for this vision model, or
   fails hard. A vision request does not fall back.
   */
  lemma OpenChoiceRefusedIff(request: Request, policy: Policy, catalog: Catalog, vault: Vault, account: Account)
    requires request.useOwnKey.None?
    requires Prepare(request.(useOwnKey := Some(false)), policy, catalog, vault, account).Ok?
    ensures var served := Prepare(request.(useOwnKey := Some(false)), policy, catalog, vault, account).value;
            var own := ResolveUserKey(served.provider, policy, vault);
            Prepare(request, policy, catalog, vault, account).Err? <==>
              && UserKeyAllowed(policy)
              && (if own.Ok? then SupportsVision(served.model) && !policy.allowVisionOnUserKeys
                  else !CanTryNext(own.error))
  {
    var platform := request.(useOwnKey := Some(false));
    var served := Prepare(platform, policy, catalog, vault, account).value;
    AcceptedIff(platform, policy, catalog, vault, account, served);
    assert ChosenProvider(request, catalog, policy) == served.provider && ChosenModel(request, catalog, policy) == Some(served.model);
    assert served.keySource == Platform && !IsDirect(served.provider) && policy.allowPlatformManaged;
    OpenSelection(served.provider, policy, vault, served.apiKey);
  }

  /** What selection comes to with the choice open and a platform key at hand. */
  lemma OpenSelection(provider: string, policy: Policy, vault: Vault, key: string)
    requires !IsDirect(provider) && policy.mode != UserKeyRequired && policy.allowPlatformManaged
    requires ResolvePlatformKey(provider, policy, vault) == Ok(key)
    ensures var own := ResolveUserKey(provider, policy, vault);
            Selected(provider, policy, None, vault)
              == if UserKeyAllowed(policy) && own.Ok? then Ok(KeyMaterial(User, own.value))
                 else if UserKeyAllowed(policy) && !CanTryNext(own.error) then Err(own.error)
                 else Ok(KeyMaterial(Platform, key))
  {
    var order := AttemptOrder(provider, policy, None);
    assert FirstOf([Platform], provider, policy, vault) == Ok(KeyMaterial(Platform, key));
    if UserKeyAllowed(policy) {
      assert order == [User, Platform] && order[1..] == [Platform];
    } else {
      assert order == [Platform];
    }
  }
}
