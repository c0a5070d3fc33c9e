/**
 * The GitHub Copilot authentication plugin: the domain and URL helpers, the provider options
 * the loader returns for an OAuth login, the classification of a chat request as agent- or
 * user-initiated and as carrying images, the request headers sent, and the handling of the
 * device-flow token responses. The responses of the network and the plugin's version string
 * are parameters.
 */
module Copilot {
  import opened Wrappers
  import opened Text

  /** `url.replace(/^https?:\/\//, "")`. */
  function StripScheme(url: string): (r: string)
    ensures StartsWith(url, "https://") ==> r == url[8..]
    ensures !StartsWith(url, "https://") && StartsWith(url, "http://") ==> r == url[7..]
    ensures !StartsWith(url, "https://") && !StartsWith(url, "http://") ==> r == url
  {
    if StartsWith(url, "https://") then url[8..]
    else if StartsWith(url, "http://") then url[7..]
    else url
  }

  /** `.replace(/\/$/, "")`: one trailing slash removed. */
  function StripSlash(s: string): (r: string)
    ensures EndsWith(s, "/") ==> r + "/" == s
    ensures !EndsWith(s, "/") ==> r == s
  {
    if s != [] && s[|s| - 1] == '/' then s[..|s| - 1] else s
  }

  /** `normalizeDomain`: the URL without its `http://` or `https://` scheme and without one trailing slash. */
  function NormalizeDomain(url: string): string {
    StripSlash(StripScheme(url))
  }

  predicate HasScheme(h: string) {
    StartsWith(h, "https://") || StartsWith(h, "http://")
  }

  /** A host written with or without a scheme and a trailing slash normalises to the host. */
  lemma NormalizeDomainOf(scheme: string, h: string, slash: string)
    requires scheme == "" || scheme == "http://" || scheme == "https://"
    requires slash == "" || slash == "/"
    requires scheme == "" ==> !HasScheme(h + slash)
    requires slash == "" ==> !EndsWith(h, "/")
    ensures NormalizeDomain(scheme + h + slash) == h
  {
    var url := scheme + h + slash;
    if scheme == "https://" {
      assert url[..8] == scheme;
      assert url[8..] == h + slash;
    } else if scheme == "http://" {
      assert url[..7] == scheme;
      assert !StartsWith(url, "https://") by {
        if |url| >= 8 { assert url[..8][4] == url[4] == ':'; }
      }
      assert url[7..] == h + slash;
    } else {
      assert url == h + slash;
    }
    var t := h + slash;
    if slash == "/" {
      assert EndsWith(t, "/") by { assert t[|t| - 1..] == "/"; }
      assert t[..|t| - 1] == h;
    } else {
      assert t == h;
    }
  }

  datatype Urls = Urls(deviceCodeUrl: string, accessTokenUrl: string)

  /** `getUrls`: the device-code and access-token endpoints of a GitHub domain. */
  function GetUrls(domain: string): (r: Urls)
    ensures |r.deviceCodeUrl| == |domain| + 26 && |r.accessTokenUrl| == |domain| + 33
    ensures StartsWith(r.deviceCodeUrl, "https://") && EndsWith(r.deviceCodeUrl, "/login/device/code")
    ensures StartsWith(r.accessTokenUrl, "https://") && EndsWith(r.accessTokenUrl, "/login/oauth/access_token")
    ensures r.deviceCodeUrl[8..|r.deviceCodeUrl| - 18] == domain
    ensures r.accessTokenUrl[8..|r.accessTokenUrl| - 25] == domain
  {
    var d := "https://" + domain + "/login/device/code";
    var t := "https://" + domain + "/login/oauth/access_token";
    assert d[..8] == "https://" && d[|d| - 18..] == "/login/device/code" && d[8..|d| - 18] == domain;
    assert t[..8] == "https://" && t[|t| - 25..] == "/login/oauth/access_token" && t[8..|t| - 25] == domain;
    Urls(d, t)
  }

  /** The provider base URL: the enterprise API host for an enterprise login, else the public one. */
  function BaseUrl(enterpriseUrl: Option<string>): (r: string)
    ensures enterpriseUrl.Some? && enterpriseUrl.value != "" ==> r == "https://copilot-api." + NormalizeDomain(enterpriseUrl.value)
    ensures !(enterpriseUrl.Some? && enterpriseUrl.value != "") ==> r == "https://api.githubcopilot.com"
  {
    if enterpriseUrl.Some? && enterpriseUrl.value != "" then "https://copilot-api." + NormalizeDomain(enterpriseUrl.value)
    else "https://api.githubcopilot.com"
  }

  // ---- The loader ----

  datatype Cost = Cost(input: int, output: int, cacheRead: int, cacheWrite: int)
  datatype Model = Model(cost: Cost, name: string)
  datatype AuthInfo = AuthInfo(kind: string, refresh: string, enterpriseUrl: Option<string>)
  datatype LoaderOptions = NoOptions | Options(baseUrl: string, apiKey: string)

  const FreeCost: Cost := Cost(0, 0, 0, 0)

  /** The loop that overwrites every model's cost with zero. */
  method ZeroCosts(models0: map<string, Model>) returns (models: map<string, Model>)
    ensures models.Keys == models0.Keys
    ensures forall k :: k in models ==> models[k] == models0[k].(cost := FreeCost)
  {
    models := models0;
    var todo := models0.Keys;
    while todo != {}
      invariant todo <= models0.Keys && models.Keys == models0.Keys
      invariant forall k :: k in models && k !in todo ==> models[k] == models0[k].(cost := FreeCost)
      invariant forall k :: k in todo ==> models[k] == models0[k]
      decreases todo
    {
      var k :| k in todo;
      models := models[k := models[k].(cost := FreeCost)];
      todo := todo - {k};
    }
  }

  /**
   * `loader`: nothing without an OAuth login; otherwise the provider's models become free and
   * the options carry the base URL and an empty API key.
   */
  method Loader(info: Option<AuthInfo>, models0: Option<map<string, Model>>)
    returns (options: LoaderOptions, models: Option<map<string, Model>>)
    ensures info.None? || info.value.kind != "oauth" ==> options == NoOptions && models == models0
    ensures info.Some? && info.value.kind == "oauth" ==> options == Options(BaseUrl(info.value.enterpriseUrl), "")
    ensures info.Some? && info.value.kind == "oauth" ==>
      && (models.Some? <==> models0.Some?)
      && (models.Some? ==> (models.value.Keys == models0.value.Keys
        && forall k :: k in models.value ==> models.value[k] == models0.value[k].(cost := FreeCost)))
  {
    models := models0;
    if info.None? || info.value.kind != "oauth" {
      return NoOptions, models;
    }
    if models0.Some? {
      var zeroed := ZeroCosts(models0.value);
      models := Some(zeroed);
    }
    options := Options(BaseUrl(info.value.enterpriseUrl), "");
  }

  // ---- Request classification ----

  /** A content part; `part.type` on a null part throws. */
  datatype Part = NullPart | Part(kind: Option<string>)

  /** A message's `content`: an array of parts, or anything else. */
  datatype Content = Parts(parts: seq<Part>) | NotArray

  /** A message or input item; `msg.content` on a null message throws, `item?.content` does not. */
  datatype Item = NullItem | Item(role: Option<string>, content: Content)

  /** A body field: missing or falsy, an array, or a truthy value that is not an array. */
  datatype Field = Falsy | List(items: seq<Item>) | NotList

  /** The request body after `JSON.parse`; a body that does not parse is `Unparsed`. */
  datatype Body = Unparsed | Json(messages: Field, input: Field)

  datatype Kind = Kind(isVision: bool, isAgent: bool)

  /** `parts.some((part) => part.type === kind)`; `None` when a null part is reached first. */
  function PartsHave(parts: seq<Part>, kind: string): (r: Option<bool>)
    ensures r == Some(true) <==> exists i :: (0 <= i < |parts| && parts[i] == Part(Some(kind))
      && forall j :: 0 <= j < i ==> parts[j].Part?)
    ensures r == Some(false) <==> forall i :: 0 <= i < |parts| ==> parts[i].Part? && parts[i] != Part(Some(kind))
  {
    if parts == [] then Some(false)
    else if parts[0].NullPart? then None
    else if parts[0].kind == Some(kind) then Some(true)
    else
      var r := PartsHave(parts[1..], kind);
      assert forall i :: 1 <= i < |parts| ==> parts[i] == parts[1..][i - 1];
      assert r == Some(true) ==> exists i :: (1 <= i < |parts| && parts[i] == Part(Some(kind))
        && forall j :: 0 <= j < i ==> parts[j].Part?) by {
        if r == Some(true) {
          var i :| 0 <= i < |parts[1..]| && parts[1..][i] == Part(Some(kind)) && forall j :: 0 <= j < i ==> parts[1..][j].Part?;
          assert parts[i + 1] == Part(Some(kind)) && forall j :: 0 <= j < i + 1 ==> parts[j].Part?;
        }
      }
      r
  }

  /**
   * `items.some(...)` for the vision test: a list whose content is an array holding a part of
   * the given kind. With `nullThrows` (the `messages` form) a null item throws; otherwise it
   * does not match.
   */
  function ItemsHave(items: seq<Item>, kind: string, nullThrows: bool): (r: Option<bool>)
    decreases |items|
  {
    if items == [] then Some(false)
    else
      var here: Option<bool> := match items[0]
        case NullItem => if nullThrows then None else Some(false)
        case Item(_, content) => match content
          case NotArray => Some(false)
          case Parts(parts) => PartsHave(parts, kind);
      match here
      case None => None
      case Some(true) => Some(true)
      case Some(false) => ItemsHave(items[1..], kind, nullThrows)
  }

  /** `last?.role !== "user"`: true for an empty list and for a null last item. */
  predicate LastNotUser(items: seq<Item>) {
    items == [] || items[|items| - 1].NullItem? || items[|items| - 1].role != Some("user")
  }

  /** The branch for one field: `None` when the field is not an array, since `.some` then throws. */
  function FieldKind(field: Field, kind: string, nullThrows: bool): Option<Kind>
    requires !field.Falsy?
  {
    match field
    case NotList => None
    case List(items) =>
      match ItemsHave(items, kind, nullThrows)
      case None => None
      case Some(v) => Some(Kind(v, LastNotUser(items)))
  }

  /** The classification `iife`: the Completions `messages` shape first, then the Responses `input` shape. */
  function Classify(body: Body): (r: Kind)
    ensures body.Unparsed? || (body.messages.Falsy? && body.input.Falsy?) ==> r == Kind(false, false)
  {
    var attempt: Option<Kind> :=
      if body.Unparsed? then None
      else if !body.messages.Falsy? then FieldKind(body.messages, "image_url", true)
      else if !body.input.Falsy? then FieldKind(body.input, "input_image", false)
      else None;
    attempt.GetOr(Kind(false, false))
  }

  /** For a Completions body without nulls, `isAgent` holds exactly when the last message is not the user's. */
  lemma ClassifyMessages(items: seq<Item>, input: Field)
    requires forall i :: 0 <= i < |items| ==> items[i].Item? && AllParts(items[i].content)
    ensures Classify(Json(List(items), input)).isAgent <==> |items| == 0 || items[|items| - 1].role != Some("user")
    ensures Classify(Json(List(items), input)).isVision <==>
      exists i, j :: 0 <= i < |items| && items[i].content.Parts? && 0 <= j < |items[i].content.parts|
        && items[i].content.parts[j] == Part(Some("image_url"))
  {
    ItemsHaveNoNulls(items, "image_url", true);
  }

  predicate AllParts(c: Content) {
    c.Parts? ==> forall j :: 0 <= j < |c.parts| ==> c.parts[j].Part?
  }

  /**
   * Without null parts, and without null items where a null item throws, the vision scan never
   * throws, and finds a part of the kind exactly when some item has one.
   */
  lemma {:induction false} ItemsHaveNoNulls(items: seq<Item>, kind: string, nullThrows: bool)
    requires forall i :: 0 <= i < |items| ==> (nullThrows ==> items[i].Item?) && (items[i].Item? ==> AllParts(items[i].content))
    ensures ItemsHave(items, kind, nullThrows).Some?
    ensures ItemsHave(items, kind, nullThrows).value <==>
      exists i, j :: 0 <= i < |items| && items[i].Item? && items[i].content.Parts? && 0 <= j < |items[i].content.parts|
        && items[i].content.parts[j] == Part(Some(kind))
    decreases |items|
  {
    if items != [] {
      var tail := items[1..];
      assert forall i :: 1 <= i < |items| ==> items[i] == tail[i - 1];
      ItemsHaveNoNulls(tail, kind, nullThrows);
      if items[0].Item? {
        var c := items[0].content;
        if c.Parts? {
          var h := PartsHave(c.parts, kind);
          assert h.Some?;
          if h == Some(true) {
            var j :| 0 <= j < |c.parts| && c.parts[j] == Part(Some(kind)) && forall j' :: 0 <= j' < j ==> c.parts[j'].Part?;
            assert items[0].content.parts[j] == Part(Some(kind));
          }
        }
      }
      if ItemsHave(tail, kind, nullThrows).value {
        var i, j :| 0 <= i < |tail| && tail[i].Item? && tail[i].content.Parts? && 0 <= j < |tail[i].content.parts|
          && tail[i].content.parts[j] == Part(Some(kind));
        assert items[i + 1] == tail[i];
      }
    }
  }

  /**
   * For a Responses body (no `messages`, an `input` array) without null parts, `isAgent` holds
   * exactly when the last item is missing, null or not the user's, and `isVision` exactly when
   * some item has an `input_image` part. Null items do not throw: `item?.content` skips them.
   */
  lemma ClassifyInput(items: seq<Item>)
    requires forall i :: 0 <= i < |items| ==> items[i].Item? ==> AllParts(items[i].content)
    ensures Classify(Json(Falsy, List(items))).isAgent <==> LastNotUser(items)
    ensures Classify(Json(Falsy, List(items))).isVision <==>
      exists i, j :: 0 <= i < |items| && items[i].Item? && items[i].content.Parts? && 0 <= j < |items[i].content.parts|
        && items[i].content.parts[j] == Part(Some("input_image"))
  {
    ItemsHaveNoNulls(items, "input_image", false);
  }

  /** A Responses body whose `input` is not an array (a string, say): `.some` throws, so both flags fall back to false. */
  lemma NonArrayInputFallsBack()
    ensures Classify(Json(Falsy, NotList)) == Kind(false, false)
  {
  }

  // ---- Headers ----

  /**
   * The headers sent: the caller's, then the plugin's own, the vision flag when images are
   * present, and without the lower-case `x-api-key` and `authorization`.
   */
  method Headers(init: map<string, string>, version: string, refresh: string, kind: Kind) returns (headers: map<string, string>)
    ensures "User-Agent" in headers && "Authorization" in headers && "Openai-Intent" in headers && "X-Initiator" in headers
    ensures headers["User-Agent"] == "opencode/" + version
    ensures headers["Authorization"] == "Bearer " + refresh
    ensures headers["Openai-Intent"] == "conversation-edits"
    ensures headers["X-Initiator"] == (if kind.isAgent then "agent" else "user")
    ensures ("Copilot-Vision-Request" in headers) <==> kind.isVision || "Copilot-Vision-Request" in init
    ensures kind.isVision ==> headers["Copilot-Vision-Request"] == "true"
    ensures "x-api-key" !in headers && "authorization" !in headers
    ensures forall k :: k in headers <==> (k in init && k != "x-api-key" && k != "authorization") || (k in OwnHeaders(kind) && k != "authorization")
    ensures forall k :: k in init && k !in OwnHeaders(kind) && k != "x-api-key" && k != "authorization" ==> headers[k] == init[k]
  {
    headers := init;
    headers := headers["User-Agent" := "opencode/" + version];
    headers := headers["Authorization" := "Bearer " + refresh];
    headers := headers["Openai-Intent" := "conversation-edits"];
    headers := headers["X-Initiator" := if kind.isAgent then "agent" else "user"];
    if kind.isVision {
      headers := headers["Copilot-Vision-Request" := "true"];
    }
    headers := headers - {"x-api-key", "authorization"};
  }

  /** The header names the plugin sets itself. */
  function OwnHeaders(kind: Kind): (r: set<string>)
    ensures "User-Agent" in r && "X-Initiator" in r && ("Copilot-Vision-Request" in r <==> kind.isVision)
  {
    {"User-Agent", "Authorization", "Openai-Intent", "X-Initiator"} + (if kind.isVision then {"Copilot-Vision-Request"} else {})
  }

  // ---- Authorization ----

  /** The login prompts' answers. */
  datatype Inputs = Inputs(deploymentType: Option<string>, enterpriseUrl: Option<string>)

  datatype Target = Target(domain: string, provider: string)

  /** The domain and provider of a login; an enterprise login without a URL throws in `normalizeDomain`. */
  function AuthorizeTarget(inputs: Inputs): (r: Result<Target, string>)
    ensures r.Err? <==> inputs.deploymentType == Some("enterprise") && inputs.enterpriseUrl.None?
    ensures inputs.deploymentType == Some("enterprise") && inputs.enterpriseUrl.Some? ==>
      r == Ok(Target(NormalizeDomain(inputs.enterpriseUrl.value), "github-copilot-enterprise"))
    ensures inputs.deploymentType != Some("enterprise") ==> r == Ok(Target("github.com", "github-copilot"))
  {
    // `inputs.deploymentType || "github.com"`: only the value `enterprise` selects the enterprise login
    if inputs.deploymentType == Some("enterprise") then
      match inputs.enterpriseUrl
      case None => Err("Cannot read properties of undefined (reading 'replace')")
      case Some(u) => Ok(Target(NormalizeDomain(u), "github-copilot-enterprise"))
    else Ok(Target("github.com", "github-copilot"))
  }

  /** A token endpoint response: whether it was `ok`, and the JSON fields read. */
  datatype TokenResponse = TokenResponse(ok: bool, accessToken: Option<string>, error: Option<string>)

  datatype AuthResult = Failed | Success(refresh: string, access: string, expires: int, provider: Option<string>, enterpriseUrl: Option<string>)

  datatype PollStep = Done(result: AuthResult) | Wait

  /** The successful login: the token both ways, the enterprise's provider and domain recorded. */
  function SuccessFor(target: Target, token: string): (r: AuthResult)
    ensures r.Success? && r.refresh == token && r.access == token && r.expires == 0
    ensures target.provider == "github-copilot-enterprise" ==>
      r.provider == Some("github-copilot-enterprise") && r.enterpriseUrl == Some(target.domain)
    ensures target.provider != "github-copilot-enterprise" ==> r.provider.None? && r.enterpriseUrl.None?
  {
    if target.provider == "github-copilot-enterprise" then
      Success(token, token, 0, Some("github-copilot-enterprise"), Some(target.domain))
    else Success(token, token, 0, None, None)
  }

  /** One iteration of the polling loop. */
  function Step(target: Target, resp: TokenResponse): (r: PollStep)
    ensures !resp.ok ==> r == Done(Failed)
    ensures resp.ok && resp.accessToken.Some? && resp.accessToken.value != "" ==> r == Done(SuccessFor(target, resp.accessToken.value))
    ensures r == Wait <==> (resp.ok && !(resp.accessToken.Some? && resp.accessToken.value != "")
      && (resp.error == Some("authorization_pending") || resp.error.None? || resp.error == Some("")))
  {
    if !resp.ok then Done(Failed)
    else if resp.accessToken.Some? && resp.accessToken.value != "" then Done(SuccessFor(target, resp.accessToken.value))
    else if resp.error == Some("authorization_pending") then Wait
    else if resp.error.Some? && resp.error.value != "" then Done(Failed)
    else Wait
  }

  /** The first response that ends the polling, if any. */
  function FirstDone(target: Target, responses: seq<TokenResponse>): (r: Option<nat>)
    ensures r.Some? ==> (r.value < |responses| && Step(target, responses[r.value]).Done?
      && forall j :: 0 <= j < r.value ==> Step(target, responses[j]) == Wait)
    ensures r.None? ==> forall j :: 0 <= j < |responses| ==> Step(target, responses[j]) == Wait
    decreases |responses|
  {
    if responses == [] then None
    else if Step(target, responses[0]).Done? then Some(0)
    else match FirstDone(target, responses[1..])
      case None => None
      case Some(i) => Some(i + 1)
  }

  /**
   * The `callback` loop over the token endpoint's successive responses: it stops at the first
   * failure or token. `None` means the responses given ran out while the login was still pending.
   */
  method Callback(target: Target, responses: seq<TokenResponse>) returns (r: Option<AuthResult>)
    ensures r.Some? <==> FirstDone(target, responses).Some?
    ensures r.Some? ==> r.value == Step(target, responses[FirstDone(target, responses).value]).result
  {
    var i := 0;
    while i < |responses|
      invariant 0 <= i <= |responses|
      invariant forall j :: 0 <= j < i ==> Step(target, responses[j]) == Wait
    {
      var resp := responses[i];
      if !resp.ok {
        FirstDoneAt(target, responses, i);
        return Some(Failed);
      }
      if resp.accessToken.Some? && resp.accessToken.value != "" {
        FirstDoneAt(target, responses, i);
        return Some(SuccessFor(target, resp.accessToken.value));
      }
      if resp.error == Some("authorization_pending") {
        i := i + 1;
        continue;
      }
      if resp.error.Some? && resp.error.value != "" {
        FirstDoneAt(target, responses, i);
        return Some(Failed);
      }
      i := i + 1;
    }
    return None;
  }

  lemma {:induction false} FirstDoneAt(target: Target, responses: seq<TokenResponse>, i: nat)
    requires i < |responses| && Step(target, responses[i]).Done?
    requires forall j :: 0 <= j < i ==> Step(target, responses[j]) == Wait
    ensures FirstDone(target, responses) == Some(i)
    decreases i
  {
    if i > 0 {
      assert forall j :: 0 <= j < i - 1 ==> responses[1..][j] == responses[j + 1];
      FirstDoneAt(target, responses[1..], i - 1);
    }
  }

  /** An enterprise login that succeeds records the enterprise provider and the normalised domain. */
  lemma EnterpriseSuccess(url: string, responses: seq<TokenResponse>, i: nat)
    requires i < |responses| && responses[i].ok && responses[i].accessToken.Some? && responses[i].accessToken.value != ""
    requires forall j :: 0 <= j < i ==> Step(Target(NormalizeDomain(url), "github-copilot-enterprise"), responses[j]) == Wait
    ensures var target := AuthorizeTarget(Inputs(Some("enterprise"), Some(url))).value;
      var res := Step(target, responses[FirstDone(target, responses).value]).result;
      FirstDone(target, responses) == Some(i)
      && res.provider == Some("github-copilot-enterprise") && res.enterpriseUrl == Some(NormalizeDomain(url))
  {
    var target := Target(NormalizeDomain(url), "github-copilot-enterprise");
    FirstDoneAt(target, responses, i);
  }
}
