/**
  The API Gateway integration filter: rewrites one Swagger operation in place so
  that it carries an `x-amazon-apigateway-integration` vendor extension.
  A non-OPTIONS operation gets the configured extra responses and global
  parameters, CORS headers on every response and an `http` integration; an
  OPTIONS operation gets CORS headers and a `mock` integration answering the
  CORS preflight request.

  The order in which a .NET Dictionary enumerates its entries is unspecified:
  every loop over a map below picks its next key with `:|`, so each contract
  holds whatever the enumeration order is.
 */
module GatewayFilter {
  import opened SwaggerModel
  import opened GatewaySettings

  const INTEGRATION_EXTENSION := "x-amazon-apigateway-integration"
  const OPTIONS_VERB := "OPTIONS"
  const DEFAULT_RESPONSE := "default"
  const DEFAULT_STATUS_CODE := "200"
  const STRING_HEADER := Header("string")
  const APPLICATION_JSON := "application/json"
  const TEXT_JSON := "text/json"
  const MOCK_REQUEST_TEMPLATE := "{\"statusCode\": 200}"
  const PASSTHROUGH_WHEN_NO_MATCH := "when_no_match"

  /** What the filter reads from the HTTP request that asked for the Swagger
      document and from the hosting environment, to build the backend uri. */
  datatype RequestContext = RequestContext(
    scheme: string,                  // scheme of the current request's url
    host: string,                    // host of the current request's url
    applicationVirtualPath: string,  // the application's virtual root
    relativePath: string)            // the route of the operation, without its query string

  // ----- The backend uri of an `http` integration -------------------------

  /** String.TrimEnd(c): `s` without its trailing run of `c`. */
  function TrimEnd(s: string, c: char): (r: string)
    ensures r <= s
    ensures r == [] || r[|r| - 1] != c
    ensures forall i :: |r| <= i < |s| ==> s[i] == c
  {
    if |s| > 0 && s[|s| - 1] == c then TrimEnd(s[..|s| - 1], c) else s
  }

  /** `{scheme}://{host}{virtual path without trailing '/'}/{relative path}`. */
  function Uri(context: RequestContext): (r: string)
    ensures context.scheme + "://" + context.host <= r
    ensures |r| > |context.relativePath|
    ensures r[|r| - |context.relativePath| - 1..] == "/" + context.relativePath
  {
    var prefix := context.scheme + "://" + context.host + TrimEnd(context.applicationVirtualPath, '/');
    assert prefix + "/" + context.relativePath == prefix + ("/" + context.relativePath);
    prefix + "/" + context.relativePath
  }

  /** A trailing `/` on the virtual path does not change the uri, so the
      application root `/` and the empty root give the same uri. */
  lemma UriIgnoresTrailingSlash(context: RequestContext)
    ensures Uri(context.(applicationVirtualPath := context.applicationVirtualPath + "/")) == Uri(context)
  {
    var path := context.applicationVirtualPath;
    assert (path + "/")[..|path|] == path;
  }

  // ----- requestParameters: the request mapping of an `http` integration ----

  /** `integration.request.{kind}.{name}` */
  function IntegrationParameter(kind: string, name: string): string {
    "integration.request." + kind + "." + name
  }

  /** `method.request.{kind}.{name}` */
  function MethodParameter(kind: string, name: string): string {
    "method.request." + kind + "." + name
  }

  /** The gateway's name for a parameter location; path, body and formData
      parameters (and any other location) are not mapped. */
  function LocationKind(location: string): Option<string> {
    if location == "query" then Some("querystring")
    else if location == "header" then Some("header")
    else None
  }

  predicate IsMapped(p: Parameter) {
    LocationKind(p.location).Some?
  }

  function RequestKey(p: Parameter): string
    requires IsMapped(p)
  {
    IntegrationParameter(LocationKind(p.location).value, p.name)
  }

  function RequestValue(p: Parameter): string
    requires IsMapped(p)
  {
    MethodParameter(LocationKind(p.location).value, p.name)
  }

  /** The request mapping built from `acc` by adding the parameters `ps` in
      order with Dictionary.Add, which throws on a key already present. */
  function RequestParametersFrom(acc: map<string, string>, ps: seq<Parameter>): Result<map<string, string>>
    decreases |ps|
  {
    if ps == [] then Ok(acc)
    else if !IsMapped(ps[0]) then RequestParametersFrom(acc, ps[1..])
    else if RequestKey(ps[0]) in acc then Err(DuplicateKey(RequestKey(ps[0])))
    else RequestParametersFrom(acc[RequestKey(ps[0]) := RequestValue(ps[0])], ps[1..])
  }

  /** The request mapping of a parameter list. */
  function RequestParameters(ps: seq<Parameter>): Result<map<string, string>> {
    RequestParametersFrom(map[], ps)
  }

  /** The query and header parameters of `ps`, in order. */
  function MappedParameters(ps: seq<Parameter>): (r: seq<Parameter>)
    ensures forall p :: p in r ==> p in ps && IsMapped(p)
    ensures forall p :: p in ps && IsMapped(p) ==> p in r
    ensures |r| <= |ps|
  {
    if ps == [] then []
    else if IsMapped(ps[0]) then [ps[0]] + MappedParameters(ps[1..])
    else MappedParameters(ps[1..])
  }

  /** Two parameters that the request mapping cannot both hold: same location, same name. */
  predicate SameRequestParameter(p: Parameter, q: Parameter) {
    IsMapped(p) && p.location == q.location && p.name == q.name
  }

  predicate NoRepeatedRequestParameter(ps: seq<Parameter>) {
    forall i, j :: 0 <= i < j < |ps| ==> !SameRequestParameter(ps[i], ps[j])
  }

  /** Query and header parameters get the same request key exactly when
      they have the same location and the same name. */
  lemma RequestKeyInjective(p: Parameter, q: Parameter)
    requires IsMapped(p) && IsMapped(q)
    ensures RequestKey(p) == RequestKey(q) <==> p.location == q.location && p.name == q.name
  {
    var kp, kq := LocationKind(p.location).value, LocationKind(q.location).value;
    if RequestKey(p) == RequestKey(q) {
      var prefix := "integration.request.";
      assert RequestKey(p) == prefix + kp + "." + p.name;
      assert RequestKey(q) == prefix + kq + "." + q.name;
      assert RequestKey(p)[|prefix|] == kp[0];
      assert RequestKey(q)[|prefix|] == kq[0];
      assert kp == kq;
      var head := prefix + kp + ".";
      assert RequestKey(p) == head + p.name && RequestKey(q) == head + q.name;
      assert p.name == RequestKey(p)[|head|..];
      assert q.name == RequestKey(q)[|head|..];
    }
  }

  lemma NoRepeatedRequestParameterUnfold(ps: seq<Parameter>)
    requires ps != []
    ensures NoRepeatedRequestParameter(ps) <==>
      NoRepeatedRequestParameter(ps[1..]) && forall p :: p in ps[1..] ==> !SameRequestParameter(ps[0], p)
  {
    var rest := ps[1..];
    if NoRepeatedRequestParameter(rest) && forall p :: p in rest ==> !SameRequestParameter(ps[0], p) {
      forall i, j | 0 <= i < j < |ps| ensures !SameRequestParameter(ps[i], ps[j]) {
        assert ps[j] == rest[j - 1];
        if i > 0 {
          assert ps[i] == rest[i - 1];
        }
      }
    }
    if NoRepeatedRequestParameter(ps) {
      forall i, j | 0 <= i < j < |rest| ensures !SameRequestParameter(rest[i], rest[j]) {
        assert rest[i] == ps[i + 1] && rest[j] == ps[j + 1];
      }
      forall p | p in rest ensures !SameRequestParameter(ps[0], p) {
        var j :| 0 <= j < |rest| && rest[j] == p;
        assert rest[j] == ps[j + 1];
      }
    }
  }

  /** Building the request mapping from `acc` succeeds exactly when no two
      query or header parameters repeat a location and name and none of them
      is already in `acc`. */
  lemma {:induction false} RequestParametersFromOk(acc: map<string, string>, ps: seq<Parameter>)
    ensures RequestParametersFrom(acc, ps).Ok? <==>
      NoRepeatedRequestParameter(ps) && forall p :: p in ps && IsMapped(p) ==> RequestKey(p) !in acc
    decreases |ps|
  {
    if ps == [] {
      return;
    }
    var rest := ps[1..];
    NoRepeatedRequestParameterUnfold(ps);
    assert forall p :: p in ps <==> p == ps[0] || p in rest;
    if !IsMapped(ps[0]) {
      RequestParametersFromOk(acc, rest);
      return;
    }
    var key := RequestKey(ps[0]);
    if key in acc {
      return;
    }
    var acc' := acc[key := RequestValue(ps[0])];
    RequestParametersFromOk(acc', rest);
    forall p | p in rest && IsMapped(p)
      ensures RequestKey(p) !in acc' <==> RequestKey(p) !in acc && !SameRequestParameter(ps[0], p)
    {
      RequestKeyInjective(ps[0], p);
    }
  }

  /** A successful build from `acc` keeps `acc` and adds one entry per
      query or header parameter. */
  lemma {:induction false} RequestParametersFromEntries(acc: map<string, string>, ps: seq<Parameter>)
    requires RequestParametersFrom(acc, ps).Ok?
    ensures var m := RequestParametersFrom(acc, ps).value;
      && m.Keys == acc.Keys + (set p | p in ps && IsMapped(p) :: RequestKey(p))
      && (forall k :: k in acc ==> m[k] == acc[k])
      && (forall p :: p in ps && IsMapped(p) ==> m[RequestKey(p)] == RequestValue(p))
    decreases |ps|
  {
    if ps == [] {
      return;
    }
    var rest := ps[1..];
    assert forall p :: p in ps <==> p == ps[0] || p in rest;
    if !IsMapped(ps[0]) {
      assert RequestParametersFrom(acc, ps) == RequestParametersFrom(acc, rest);
      RequestParametersFromEntries(acc, rest);
      assert (set p | p in ps && IsMapped(p) :: RequestKey(p)) == (set p | p in rest && IsMapped(p) :: RequestKey(p));
    } else {
      var key := RequestKey(ps[0]);
      assert key !in acc;
      var acc' := acc[key := RequestValue(ps[0])];
      assert RequestParametersFrom(acc, ps) == RequestParametersFrom(acc', rest);
      RequestParametersFromEntries(acc', rest);
      assert forall k :: k in acc ==> acc'[k] == acc[k];
      assert (set p | p in ps && IsMapped(p) :: RequestKey(p))
          == {key} + (set p | p in rest && IsMapped(p) :: RequestKey(p));
    }
  }

  /** Each query or header parameter adds one entry to a successful build. */
  lemma {:induction false} RequestParametersFromSize(acc: map<string, string>, ps: seq<Parameter>)
    requires RequestParametersFrom(acc, ps).Ok?
    ensures |RequestParametersFrom(acc, ps).value| == |acc| + |MappedParameters(ps)|
    decreases |ps|
  {
    if ps == [] {
      return;
    }
    var rest := ps[1..];
    if !IsMapped(ps[0]) {
      RequestParametersFromSize(acc, rest);
    } else {
      var key := RequestKey(ps[0]);
      var acc' := acc[key := RequestValue(ps[0])];
      RequestParametersFromSize(acc', rest);
      assert |acc'| == |acc| + 1;
    }
  }

  /** The request mapping of a parameter list exists exactly when no query or
      header parameter repeats a location and name; it then holds exactly
      one `integration.request.{kind}.{name}` entry per query or header
      parameter, mapped to `method.request.{kind}.{name}`. */
  lemma RequestParametersSpec(ps: seq<Parameter>)
    ensures RequestParameters(ps).Ok? <==> NoRepeatedRequestParameter(ps)
    ensures RequestParameters(ps).Ok? ==>
      var m := RequestParameters(ps).value;
      && m.Keys == (set p | p in ps && IsMapped(p) :: RequestKey(p))
      && (forall p :: p in ps && IsMapped(p) ==> m[RequestKey(p)] == RequestValue(p))
      && |m| == |MappedParameters(ps)|
  {
    RequestParametersFromOk(map[], ps);
    if RequestParameters(ps).Ok? {
      RequestParametersFromEntries(map[], ps);
      RequestParametersFromSize(map[], ps);
    }
  }

  /** GetAWSRequest: the request mapping of the operation's parameters. */
  method GetAwsRequest(op: Operation) returns (r: Result<map<string, string>>)
    ensures r == RequestParameters(op.parameters.GetOr([]))
  {
    var requestParameters := map[];
    if op.parameters.None? || |op.parameters.value| <= 0 {
      return Ok(requestParameters);
    }
    var ps := op.parameters.value;
    for i := 0 to |ps|
      invariant RequestParametersFrom(requestParameters, ps[i..]) == RequestParameters(ps)
    {
      assert ps[i..][1..] == ps[i + 1..];
      var p := ps[i];
      if p.location == "query" {
        var key := IntegrationParameter("querystring", p.name);
        if key in requestParameters {
          return Err(DuplicateKey(key));
        }
        requestParameters := requestParameters[key := MethodParameter("querystring", p.name)];
      } else if p.location == "header" {
        var key := IntegrationParameter("header", p.name);
        if key in requestParameters {
          return Err(DuplicateKey(key));
        }
        requestParameters := requestParameters[key := MethodParameter("header", p.name)];
      }
    }
    r := Ok(requestParameters);
  }

  // ----- responses: the response mapping of both integrations -------------

  /** `method.response.header.{name}` */
  function ResponseHeaderParameter(name: string): string {
    "method.response.header." + name
  }

  lemma ResponseHeaderParametersDistinct()
    ensures ResponseHeaderParameter(ACCESS_CONTROL_ALLOW_HEADERS) != ResponseHeaderParameter(ACCESS_CONTROL_ALLOW_METHODS)
    ensures ResponseHeaderParameter(ACCESS_CONTROL_ALLOW_HEADERS) != ResponseHeaderParameter(ACCESS_CONTROL_ALLOW_ORIGIN)
    ensures ResponseHeaderParameter(ACCESS_CONTROL_ALLOW_METHODS) != ResponseHeaderParameter(ACCESS_CONTROL_ALLOW_ORIGIN)
  {
    var k := |"method.response.header.Access-Control-Allow-"|;
    assert ResponseHeaderParameter(ACCESS_CONTROL_ALLOW_HEADERS)[k] == 'H';
    assert ResponseHeaderParameter(ACCESS_CONTROL_ALLOW_METHODS)[k] == 'M';
    assert ResponseHeaderParameter(ACCESS_CONTROL_ALLOW_ORIGIN)[k] == 'O';
  }

  /** The configured value in single quotes; a null value interpolates as empty. */
  function Quoted(value: Option<string>): string {
    "'" + value.GetOr("") + "'"
  }

  /** The responseParameters shared by every response of an integration: one
      entry per enabled CORS header, holding its configured value in quotes. */
  function ResponseParameters(policy: AccessControl): (rp: map<string, string>)
    reads policy
    ensures rp.Keys == set n | n in policy.AllowedAccessControls() :: ResponseHeaderParameter(n)
    ensures policy.allowHeaders ==>
      rp[ResponseHeaderParameter(ACCESS_CONTROL_ALLOW_HEADERS)] == Quoted(policy.headerValue)
    ensures policy.allowMethods ==>
      rp[ResponseHeaderParameter(ACCESS_CONTROL_ALLOW_METHODS)] == Quoted(policy.methodValue)
    ensures policy.allowOrigin ==>
      rp[ResponseHeaderParameter(ACCESS_CONTROL_ALLOW_ORIGIN)] == Quoted(policy.originValue)
  {
    ResponseHeaderParametersDistinct();
    var withHeaders: map<string, string> :=
      if policy.allowHeaders
      then map[ResponseHeaderParameter(ACCESS_CONTROL_ALLOW_HEADERS) := Quoted(policy.headerValue)]
      else map[];
    var withMethods :=
      if policy.allowMethods
      then withHeaders[ResponseHeaderParameter(ACCESS_CONTROL_ALLOW_METHODS) := Quoted(policy.methodValue)]
      else withHeaders;
    if policy.allowOrigin
    then withMethods[ResponseHeaderParameter(ACCESS_CONTROL_ALLOW_ORIGIN) := Quoted(policy.originValue)]
    else withMethods
  }

  /** The response mapping of an `http` integration: one entry per status
      code, then `default` at status 200, which fails when `default` is
      already one of the codes. */
  function GatewayResponses(codes: set<string>, rp: map<string, string>): (r: Result<map<string, GatewayResponse>>)
    ensures r.Ok? <==> DEFAULT_RESPONSE !in codes
    ensures r.Err? ==> r.error == DuplicateKey(DEFAULT_RESPONSE)
    ensures r.Ok? ==> r.value.Keys == codes + {DEFAULT_RESPONSE}
    ensures r.Ok? ==> forall c :: c in codes ==> r.value[c] == GatewayResponse(c, rp)
    ensures r.Ok? ==> r.value[DEFAULT_RESPONSE] == GatewayResponse(DEFAULT_STATUS_CODE, rp)
  {
    if DEFAULT_RESPONSE in codes then Err(DuplicateKey(DEFAULT_RESPONSE))
    else Ok((map c | c in codes :: GatewayResponse(c, rp))[DEFAULT_RESPONSE := GatewayResponse(DEFAULT_STATUS_CODE, rp)])
  }

  /** GetAWSResponse: the response mapping of the operation's responses. */
  method GetAwsResponse(op: Operation, policy: AccessControl) returns (r: Result<map<string, GatewayResponse>>)
    ensures r == GatewayResponses(op.responses.Keys, ResponseParameters(policy))
  {
    var awsResponses: map<string, GatewayResponse> := map[];
    var responseParameters := ResponseParameters(policy);
    var todo := op.responses.Keys;
    while todo != {}
      invariant todo <= op.responses.Keys
      invariant awsResponses == map c | c in op.responses.Keys - todo :: GatewayResponse(c, responseParameters)
      decreases todo
    {
      var code :| code in todo;
      // each code is enumerated once, so this Dictionary.Add never throws
      assert code !in awsResponses;
      awsResponses := awsResponses[code := GatewayResponse(code, responseParameters)];
      todo := todo - {code};
    }
    assert op.responses.Keys - todo == op.responses.Keys;
    if DEFAULT_RESPONSE in awsResponses {
      return Err(DuplicateKey(DEFAULT_RESPONSE));
    }
    r := Ok(awsResponses[DEFAULT_RESPONSE := GatewayResponse(DEFAULT_STATUS_CODE, responseParameters)]);
  }

  // ----- The two integrations ---------------------------------------------

  /** The `http` integration of a non-OPTIONS operation. It can be built
      exactly when no response is already coded "default" and no request
      parameter repeats; the responses are built before the request
      parameters, so the `default` error wins. */
  function HttpIntegration(httpMethod: string, context: RequestContext, codes: set<string>,
                           ps: seq<Parameter>, policy: AccessControl): (r: Result<Integration>)
    reads policy
    ensures r.Ok? <==> DEFAULT_RESPONSE !in codes && NoRepeatedRequestParameter(ps)
    ensures DEFAULT_RESPONSE in codes ==> r == Err(DuplicateKey(DEFAULT_RESPONSE))
    ensures r.Ok? ==>
      && r.value.Http?
      && r.value.integrationType == "http"
      && r.value.httpMethod == httpMethod
      && r.value.uri == Uri(context)
      && r.value.responses.Keys == codes + {DEFAULT_RESPONSE}
      && (forall c :: c in r.value.responses ==> r.value.responses[c].responseParameters == ResponseParameters(policy))
      && r.value.requestParameters.Keys == (set p | p in ps && IsMapped(p) :: RequestKey(p))
  {
    RequestParametersSpec(ps);
    match GatewayResponses(codes, ResponseParameters(policy))
    case Err(e) => Err(e)
    case Ok(responses) =>
      match RequestParameters(ps)
      case Err(e) => Err(e)
      case Ok(request) => Ok(Http("http", httpMethod, Uri(context), responses, request))
  }

  /** The `mock` integration of an OPTIONS operation: a single `default`
      response at status 200, and a fixed request template that makes the
      gateway answer 200 without calling any backend. */
  function MockIntegration(policy: AccessControl): (r: Integration)
    reads policy
    ensures r.Mock? && r.integrationType == "mock"
    ensures r.responses.Keys == {DEFAULT_RESPONSE}
    ensures r.responses[DEFAULT_RESPONSE].statusCode == DEFAULT_STATUS_CODE
    ensures r.responses[DEFAULT_RESPONSE].responseParameters == ResponseParameters(policy)
    ensures r.passthroughBehavior == PASSTHROUGH_WHEN_NO_MATCH
    ensures r.requestTemplates.Keys == {APPLICATION_JSON}
    ensures r.requestTemplates[APPLICATION_JSON] == MOCK_REQUEST_TEMPLATE
  {
    Mock("mock",
         map[DEFAULT_RESPONSE := GatewayResponse(DEFAULT_STATUS_CODE, ResponseParameters(policy))],
         PASSTHROUGH_WHEN_NO_MATCH,
         map[APPLICATION_JSON := MOCK_REQUEST_TEMPLATE])
  }

  /** The OPTIONS answer and every response of an `http` integration carry
      the same CORS response parameters, so a preflight request and the
      actual request see the same Access-Control-Allow-* values. The source
      builds these parameters with two textually identical blocks; the model
      defines them once, as `ResponseParameters`, so this holds by
      construction and records that the two blocks agree. */
  lemma CorsParametersShared(httpMethod: string, context: RequestContext, codes: set<string>,
                             ps: seq<Parameter>, policy: AccessControl)
    requires HttpIntegration(httpMethod, context, codes, ps, policy).Ok?
    ensures var http := HttpIntegration(httpMethod, context, codes, ps, policy).value;
      var mock := MockIntegration(policy);
      forall c :: c in http.responses ==>
        http.responses[c].responseParameters == mock.responses[DEFAULT_RESPONSE].responseParameters
  {
  }

  // ----- CORS headers on responses ----------------------------------------

  /** `h` with a `string` header added for every name in `names` it lacks. */
  function WithCorsHeaders(h: map<string, Header>, names: seq<string>): (r: map<string, Header>)
    ensures r.Keys == h.Keys + set n | n in names
    ensures forall k :: k in h ==> r[k] == h[k]
    ensures forall k :: k in r && k !in h ==> r[k] == STRING_HEADER
  {
    h + map n | n in names && n !in h :: STRING_HEADER
  }

  predicate NoDuplicates(names: seq<string>) {
    forall i, j :: 0 <= i < j < |names| ==> names[i] != names[j]
  }

  /** The body of the normal path's response loop, for the response stored under `code`. */
  method DecorateResponse(code: string, r: Response, names: seq<string>)
    modifies r
    ensures r.headers == Some(WithCorsHeaders(old(r.headers).GetOr(map[]), names))
    ensures r.vendorExtensions == Some(old(r.vendorExtensions).GetOr(map[]))
    ensures r.description == Some(code)
  {
    if r.headers.None? {
      r.headers := Some(map[]);
    }
    if r.vendorExtensions.None? {
      r.vendorExtensions := Some(map[]);
    }
    r.description := Some(code);
    ghost var h0 := r.headers.value;
    WithCorsHeadersEmpty(h0);
    for i := 0 to |names|
      invariant r.headers == Some(WithCorsHeaders(h0, names[..i]))
      invariant r.vendorExtensions == Some(old(r.vendorExtensions).GetOr(map[]))
      invariant r.description == Some(code)
    {
      assert names[..i + 1] == names[..i] + [names[i]];
      WithCorsHeadersSnoc(h0, names[..i], names[i]);
      if names[i] !in r.headers.value {
        r.headers := Some(r.headers.value[names[i] := STRING_HEADER]);
      }
    }
    assert names[..|names|] == names;
  }

  /** The headers `h` after the OPTIONS loop body threw `error` on headers
      that were `h0`: the offending name is the first CORS name already
      declared, and exactly the names before it were added. */
  predicate StoppedAt(h0: Option<map<string, Header>>, h: Option<map<string, Header>>,
                      names: seq<string>, error: Error)
  {
    exists k :: && 0 <= k < |names| && error == DuplicateKey(names[k])
                && names[k] in h0.GetOr(map[])
                && (forall j :: 0 <= j < k ==> names[j] !in h0.GetOr(map[]))
                && h == Some(WithCorsHeaders(h0.GetOr(map[]), names[..k]))
  }

  /** The failing name is determined: it is the first declared one. */
  lemma StoppedAtFirstDeclared(h0: Option<map<string, Header>>, h: Option<map<string, Header>>,
                               names: seq<string>, error: Error, k: nat)
    requires StoppedAt(h0, h, names, error)
    requires k < |names| && names[k] in h0.GetOr(map[])
    requires forall j :: 0 <= j < k ==> names[j] !in h0.GetOr(map[])
    ensures error == DuplicateKey(names[k])
  {
    var k' :| && 0 <= k' < |names| && error == DuplicateKey(names[k'])
              && names[k'] in h0.GetOr(map[])
              && (forall j :: 0 <= j < k' ==> names[j] !in h0.GetOr(map[]))
              && h == Some(WithCorsHeaders(h0.GetOr(map[]), names[..k']));
    assert k' == k;
  }

  /** The body of the OPTIONS path's response loop: the headers are added
      without checking for them first, so one already present throws. */
  method DecorateOptionsResponse(r: Response, names: seq<string>) returns (outcome: Outcome)
    requires NoDuplicates(names)
    modifies r
    ensures outcome.Pass? <==> NoneDeclared(old(r.headers), names)
    ensures outcome.Fail? ==> outcome.error.DuplicateKey? && outcome.error.key in names
    ensures outcome.Pass? ==>
      r.headers == Some(WithCorsHeaders(old(r.headers).GetOr(map[]), names))
    ensures outcome.Fail? ==> StoppedAt(old(r.headers), r.headers, names, outcome.error)
    ensures r.vendorExtensions == Some(old(r.vendorExtensions).GetOr(map[]))
    ensures r.description == old(r.description)
  {
    if r.headers.None? {
      r.headers := Some(map[]);
    }
    if r.vendorExtensions.None? {
      r.vendorExtensions := Some(map[]);
    }
    ghost var h0 := r.headers.value;
    WithCorsHeadersEmpty(h0);
    for i := 0 to |names|
      invariant r.headers == Some(WithCorsHeaders(h0, names[..i]))
      invariant r.vendorExtensions == Some(old(r.vendorExtensions).GetOr(map[]))
      invariant r.description == old(r.description)
      invariant forall n :: n in names[..i] ==> n !in h0
    {
      assert names[..i + 1] == names[..i] + [names[i]];
      WithCorsHeadersSnoc(h0, names[..i], names[i]);
      if names[i] in r.headers.value {
        assert names[i] !in names[..i];
        assert names[i] in old(r.headers).GetOr(map[]);
        outcome := Fail(DuplicateKey(names[i]));
        assert outcome.error.key == names[i] && r.headers == Some(WithCorsHeaders(h0, names[..i]));
        assert forall j :: 0 <= j < i ==> names[j] !in h0 by {
          forall j | 0 <= j < i ensures names[j] !in h0 { assert names[j] in names[..i]; }
        }
        return;
      }
      r.headers := Some(r.headers.value[names[i] := STRING_HEADER]);
    }
    assert names[..|names|] == names;
    outcome := Pass;
  }

  lemma WithCorsHeadersIdempotent(h: map<string, Header>, names: seq<string>)
    ensures WithCorsHeaders(WithCorsHeaders(h, names), names) == WithCorsHeaders(h, names)
  {
  }

  lemma WithCorsHeadersEmpty(h: map<string, Header>)
    ensures WithCorsHeaders(h, []) == h
  {
  }

  /** Adding one more name adds its header exactly when it is still missing. */
  lemma WithCorsHeadersSnoc(h: map<string, Header>, names: seq<string>, n: string)
    ensures var w := WithCorsHeaders(h, names);
      WithCorsHeaders(h, names + [n]) == if n in w then w else w[n := STRING_HEADER]
  {
    var w := WithCorsHeaders(h, names);
    var w' := WithCorsHeaders(h, names + [n]);
    var e := if n in w then w else w[n := STRING_HEADER];
    forall k
      ensures k in w' <==> k in e
    {
      assert k in names + [n] <==> k in names || k == n;
    }
    assert w'.Keys == e.Keys;
  }

  // ----- The response loops -------------------------------------------------

  /** The normal path's loop over the operation's responses. A Response object
      stored under several codes is visited once per code and ends up
      described by one of them; with distinct objects each is described by
      its own code. */
  method DecorateResponses(op: Operation, names: seq<string>)
    modifies op.responses.Values
    ensures forall c :: c in op.responses ==>
      && op.responses[c].headers == Some(WithCorsHeaders(old(op.responses[c].headers).GetOr(map[]), names))
      && op.responses[c].vendorExtensions == Some(old(op.responses[c].vendorExtensions).GetOr(map[]))
      && op.responses[c].description.Some?
      && op.responses[c].description.value in op.responses
      && op.responses[op.responses[c].description.value] == op.responses[c]
    ensures DistinctResponses(op.responses) ==>
      forall c :: c in op.responses ==> op.responses[c].description == Some(c)
  {
    var todo := op.responses.Keys;
    ghost var touched: set<Response> := {};
    while todo != {}
      invariant todo <= op.responses.Keys
      invariant forall c :: c in op.responses && c !in todo ==> op.responses[c] in touched
      invariant forall c :: c in op.responses ==>
        var r := op.responses[c];
        if r in touched then
          && r.headers == Some(WithCorsHeaders(old(r.headers).GetOr(map[]), names))
          && r.vendorExtensions == Some(old(r.vendorExtensions).GetOr(map[]))
          && r.description.Some?
          && r.description.value in op.responses
          && op.responses[r.description.value] == r
        else
          r.headers == old(r.headers) && r.vendorExtensions == old(r.vendorExtensions)
      decreases todo
    {
      var code :| code in todo;
      var r := op.responses[code];
      if r in touched {
        WithCorsHeadersIdempotent(old(r.headers).GetOr(map[]), names);
      }
      label Visit:
      DecorateResponse(code, r, names);
      forall c | c in op.responses && op.responses[c] != r
        ensures op.responses[c].headers == old@Visit(op.responses[c].headers)
        ensures op.responses[c].vendorExtensions == old@Visit(op.responses[c].vendorExtensions)
      {
      }
      touched := touched + {r};
      todo := todo - {code};
    }
  }

  /** None of `names` is already declared in the (possibly absent) headers `h`. */
  predicate NoneDeclared(h: Option<map<string, Header>>, names: seq<string>) {
    forall n :: n in names ==> n !in h.GetOr(map[])
  }

  /** The CORS headers can be added, without a duplicate, to every response
      of an OPTIONS operation: there are none to add, or no Response object
      is stored under two codes and no response already declares one of them. */
  ghost predicate OptionsHeadersAddable(responses: map<string, Response>, names: seq<string>)
    reads responses.Values
  {
    || names == []
    || (&& DistinctResponses(responses)
        && forall c :: c in responses ==> NoneDeclared(responses[c].headers, names))
  }

  /** The OPTIONS path's loop over the operation's responses. It stops at the
      first header that is already present: one declared before the loop, or
      one it added itself to a Response object stored under an earlier code. */
  method DecorateOptionsResponses(op: Operation, names: seq<string>) returns (outcome: Outcome)
    requires NoDuplicates(names)
    modifies op.responses.Values
    ensures outcome.Pass? <==> old(OptionsHeadersAddable(op.responses, names))
    ensures outcome.Fail? ==> outcome.error.DuplicateKey? && outcome.error.key in names
    ensures outcome.Pass? ==> forall c :: c in op.responses ==>
      && op.responses[c].headers == Some(WithCorsHeaders(old(op.responses[c].headers).GetOr(map[]), names))
      && op.responses[c].vendorExtensions == Some(old(op.responses[c].vendorExtensions).GetOr(map[]))
      && op.responses[c].description == old(op.responses[c].description)
  {
    var responses := op.responses;
    var todo := responses.Keys;
    // the Response objects visited so far
    ghost var touched: set<Response> := {};
    outcome := Pass;
    while todo != {}
      invariant outcome == Pass
      invariant todo <= responses.Keys
      invariant forall c :: c in responses && c !in todo ==>
        responses[c] in touched && NoneDeclared(old(responses[c].headers), names)
      invariant names != [] ==> forall c :: c in todo && responses[c] in touched ==> !DistinctResponses(responses)
      invariant names != [] ==> forall c, d :: c in responses && d in responses && c !in todo && d !in todo && c != d ==>
        responses[c] != responses[d]
      invariant forall c :: c in responses ==>
        var r := responses[c];
        && r.description == old(r.description)
        && if r in touched then
             && r.headers == Some(WithCorsHeaders(old(r.headers).GetOr(map[]), names))
             && r.vendorExtensions == Some(old(r.vendorExtensions).GetOr(map[]))
           else
             r.headers == old(r.headers) && r.vendorExtensions == old(r.vendorExtensions)
      decreases todo
    {
      var code :| code in todo;
      var r := responses[code];
      ghost var wasVisited := r in touched;
      if wasVisited {
        WithCorsHeadersIdempotent(old(r.headers).GetOr(map[]), names);
        assert names != [] ==> names[0] in r.headers.GetOr(map[]);
      }
      label Visit:
      outcome := DecorateOptionsResponse(r, names);
      if outcome.Fail? {
        if !wasVisited {
          assert old(!NoneDeclared(op.responses[code].headers, names));
        }
        return;
      }
      assert names != [] ==> !wasVisited;
      assert && r.headers == Some(WithCorsHeaders(old(r.headers).GetOr(map[]), names))
             && r.vendorExtensions == Some(old(r.vendorExtensions).GetOr(map[]))
             && r.description == old(r.description);
      forall c | c in responses && responses[c] != r
        ensures responses[c].headers == old@Visit(responses[c].headers)
        ensures responses[c].vendorExtensions == old@Visit(responses[c].vendorExtensions)
        ensures responses[c].description == old@Visit(responses[c].description)
      {
      }
      touched := touched + {r};
      todo := todo - {code};
    }
    assert old(op.responses) == responses;
    assert names != [] ==> DistinctResponses(responses);
    assert forall c :: c in responses ==> old(NoneDeclared(responses[c].headers, names));
  }

  // ----- The filter ---------------------------------------------------------

  /** The first step of the normal path: each extra response is added under
      its code unless the operation already declares that code. */
  method MergeExtraResponses(op: Operation, extra: map<string, Response>)
    modifies op`responses
    ensures op.responses.Keys == old(op.responses).Keys + extra.Keys
    ensures forall c :: c in old(op.responses) ==> op.responses[c] == old(op.responses)[c]
    ensures forall c :: c in extra && c !in old(op.responses) ==> op.responses[c] == extra[c]
  {
    var todo := extra.Keys;
    while todo != {}
      invariant todo <= extra.Keys
      invariant op.responses.Keys == old(op.responses).Keys + (extra.Keys - todo)
      invariant forall c :: c in old(op.responses) ==> op.responses[c] == old(op.responses)[c]
      invariant forall c :: c in op.responses && c !in old(op.responses) ==> op.responses[c] == extra[c]
      decreases todo
    {
      var code :| code in todo;
      if code !in op.responses {
        op.responses := op.responses[code := extra[code]];
      }
      todo := todo - {code};
    }
  }

  /** The extra response objects that the merge adds to `responses`: those
      whose code the operation does not already declare. */
  function MergedExtras(responses: map<string, Response>, extra: map<string, Response>): (s: set<Response>)
    ensures forall c :: c in extra && c !in responses ==> extra[c] in s
  {
    set c | c in extra && c !in responses :: extra[c]
  }

  /** The second step of the normal path: a null parameter list becomes
      empty, then every global parameter is appended in order. */
  method AppendGlobalParameters(op: Operation, globals: seq<Parameter>)
    modifies op`parameters
    ensures op.parameters == Some(old(op.parameters).GetOr([]) + globals)
  {
    if op.parameters.None? {
      op.parameters := Some([]);
    }
    ghost var start := op.parameters.value;
    assert start == old(op.parameters).GetOr([]);
    assert start + globals[..0] == start;
    for i := 0 to |globals|
      invariant op.parameters == Some(start + globals[..i])
    {
      assert start + globals[..i + 1] == (start + globals[..i]) + [globals[i]];
      op.parameters := Some(op.parameters.value + [globals[i]]);
    }
    assert globals[..|globals|] == globals;
  }

  /** CreateOptionsMethod: CORS headers on every response, the two JSON media
      types, no operation id, and a `mock` integration. */
  method CreateOptionsMethod(op: Operation, policy: AccessControl) returns (outcome: Outcome)
    modifies op, op.responses.Values
    ensures op.responses == old(op.responses) && op.parameters == old(op.parameters)
    ensures !old(OptionsHeadersAddable(op.responses, policy.AllowedAccessControls())) ==>
      && outcome.Fail? && outcome.error.DuplicateKey?
      && outcome.error.key in policy.AllowedAccessControls()
      && op.consumes == old(op.consumes) && op.operationId == old(op.operationId)
      && op.vendorExtensions == old(op.vendorExtensions)
    ensures old(OptionsHeadersAddable(op.responses, policy.AllowedAccessControls())) ==>
      && (forall c :: c in op.responses ==>
            && op.responses[c].headers
               == Some(WithCorsHeaders(old(op.responses[c].headers).GetOr(map[]), policy.AllowedAccessControls()))
            && op.responses[c].vendorExtensions == Some(old(op.responses[c].vendorExtensions).GetOr(map[]))
            && op.responses[c].description == old(op.responses[c].description))
      && op.consumes == old(op.consumes) + [APPLICATION_JSON, TEXT_JSON]
      && op.operationId == None
      && outcome == (if INTEGRATION_EXTENSION in old(op.vendorExtensions)
                     then Fail(DuplicateKey(INTEGRATION_EXTENSION)) else Pass)
      && op.vendorExtensions == (if outcome.Pass?
                                 then old(op.vendorExtensions)[INTEGRATION_EXTENSION := GatewayIntegration(MockIntegration(policy))]
                                 else old(op.vendorExtensions))
  {
    outcome := DecorateOptionsResponses(op, policy.AllowedAccessControls());
    if outcome.Fail? {
      return;
    }
    outcome := AddMockIntegration(op, policy);
  }

  /** The end of the OPTIONS path: JSON content types, no operation id, and
      the `mock` integration stored under its vendor-extension key. */
  method AddMockIntegration(op: Operation, policy: AccessControl) returns (outcome: Outcome)
    modifies op`consumes, op`operationId, op`vendorExtensions
    ensures op.consumes == old(op.consumes) + [APPLICATION_JSON, TEXT_JSON]
    ensures op.operationId == None
    ensures outcome == (if INTEGRATION_EXTENSION in old(op.vendorExtensions)
                        then Fail(DuplicateKey(INTEGRATION_EXTENSION)) else Pass)
    ensures op.vendorExtensions == (if outcome.Pass?
                                    then old(op.vendorExtensions)[INTEGRATION_EXTENSION := GatewayIntegration(MockIntegration(policy))]
                                    else old(op.vendorExtensions))
  {
    var responseParameters := ResponseParameters(policy);
    var awsResponses: map<string, GatewayResponse> := map[];
    var requestTemplates: map<string, string> := map[];

    op.consumes := op.consumes + [APPLICATION_JSON];
    op.consumes := op.consumes + [TEXT_JSON];

    op.operationId := None;

    requestTemplates := requestTemplates[APPLICATION_JSON := MOCK_REQUEST_TEMPLATE];
    awsResponses := awsResponses[DEFAULT_RESPONSE := GatewayResponse(DEFAULT_STATUS_CODE, responseParameters)];

    if INTEGRATION_EXTENSION in op.vendorExtensions {
      return Fail(DuplicateKey(INTEGRATION_EXTENSION));
    }
    op.vendorExtensions := op.vendorExtensions[INTEGRATION_EXTENSION :=
      GatewayIntegration(Mock("mock", awsResponses, PASSTHROUGH_WHEN_NO_MATCH, requestTemplates))];
    outcome := Pass;
  }

  /** The normal path up to the integration: extra responses merged in, the
      global parameters appended, and every response decorated. */
  method DecorateOperation(op: Operation, extra: map<string, Response>, globals: seq<Parameter>,
                           names: seq<string>)
    modifies op`responses, op`parameters, op.responses.Values, MergedExtras(op.responses, extra)
    ensures op.responses.Keys == old(op.responses).Keys + extra.Keys
    ensures forall c :: c in old(op.responses) ==> op.responses[c] == old(op.responses)[c]
    ensures forall c :: c in extra && c !in old(op.responses) ==> op.responses[c] == extra[c]
    ensures op.parameters == Some(old(op.parameters).GetOr([]) + globals)
    ensures forall c :: c in op.responses ==>
      var r := op.responses[c];
      && r.headers == Some(WithCorsHeaders(old(r.headers).GetOr(map[]), names))
      && r.vendorExtensions == Some(old(r.vendorExtensions).GetOr(map[]))
      && r.description.Some? && r.description.value in op.responses
      && op.responses[r.description.value] == r
    ensures DistinctResponses(op.responses) ==>
      forall c :: c in op.responses ==> op.responses[c].description == Some(c)
  {
    MergeExtraResponses(op, extra);
    AppendGlobalParameters(op, globals);
    assert forall c :: c in op.responses ==>
      var r := op.responses[c];
      r.headers == old(r.headers) && r.vendorExtensions == old(r.vendorExtensions);
    DecorateResponses(op, names);
  }

  /** The end of the normal path: the `http` integration is computed from the
      decorated operation and stored under its vendor-extension key. */
  method AddHttpIntegration(op: Operation, httpMethod: string, context: RequestContext, policy: AccessControl)
    returns (outcome: Outcome)
    modifies op`vendorExtensions
    ensures var integration := HttpIntegration(httpMethod, context, op.responses.Keys,
                                                op.parameters.GetOr([]), policy);
      if integration.Err? then
        outcome == Fail(integration.error) && op.vendorExtensions == old(op.vendorExtensions)
      else if INTEGRATION_EXTENSION in old(op.vendorExtensions) then
        outcome == Fail(DuplicateKey(INTEGRATION_EXTENSION)) && op.vendorExtensions == old(op.vendorExtensions)
      else
        && outcome == Pass
        && op.vendorExtensions == old(op.vendorExtensions)[INTEGRATION_EXTENSION := GatewayIntegration(integration.value)]
  {
    var responses := GetAwsResponse(op, policy);
    if responses.Err? {
      return Fail(responses.error);
    }
    var request := GetAwsRequest(op);
    if request.Err? {
      return Fail(request.error);
    }
    if INTEGRATION_EXTENSION in op.vendorExtensions {
      return Fail(DuplicateKey(INTEGRATION_EXTENSION));
    }
    op.vendorExtensions := op.vendorExtensions[INTEGRATION_EXTENSION :=
      GatewayIntegration(Http("http", httpMethod, Uri(context), responses.value, request.value))];
    outcome := Pass;
  }

  /** The non-OPTIONS path of Apply: the operation gets the extra responses,
      the global parameters and the CORS headers, then the `http` proxy
      integration of the result. */
  method ProxyOperation(op: Operation, settings: IntegrationSettings, httpMethod: string, context: RequestContext)
    returns (outcome: Outcome)
    modifies op, op.responses.Values, MergedExtras(op.responses, settings.extraResponses)
    ensures op.consumes == old(op.consumes) && op.operationId == old(op.operationId)
    ensures op.responses.Keys == old(op.responses).Keys + old(settings.extraResponses).Keys
    ensures forall c :: c in old(op.responses) ==> op.responses[c] == old(op.responses)[c]
    ensures forall c :: c in old(settings.extraResponses) && c !in old(op.responses) ==>
      op.responses[c] == old(settings.extraResponses)[c]
    ensures op.parameters == Some(old(op.parameters).GetOr([]) + settings.globalActionParameters)
    ensures forall c :: c in op.responses ==>
      var r := op.responses[c];
      && r.headers == Some(WithCorsHeaders(old(r.headers).GetOr(map[]),
                                           settings.allowedAccessControl.AllowedAccessControls()))
      && r.vendorExtensions == Some(old(r.vendorExtensions).GetOr(map[]))
      && r.description.Some? && r.description.value in op.responses
      && op.responses[r.description.value] == r
    ensures DistinctResponses(op.responses) ==>
      forall c :: c in op.responses ==> op.responses[c].description == Some(c)
    ensures var integration := HttpIntegration(httpMethod, context, op.responses.Keys, op.parameters.GetOr([]),
                                               settings.allowedAccessControl);
      if integration.Err? then
        outcome == Fail(integration.error) && op.vendorExtensions == old(op.vendorExtensions)
      else if INTEGRATION_EXTENSION in old(op.vendorExtensions) then
        outcome == Fail(DuplicateKey(INTEGRATION_EXTENSION)) && op.vendorExtensions == old(op.vendorExtensions)
      else
        && outcome == Pass
        && op.vendorExtensions == old(op.vendorExtensions)[INTEGRATION_EXTENSION := GatewayIntegration(integration.value)]
  {
    var policy := settings.allowedAccessControl;
    DecorateOperation(op, settings.extraResponses, settings.globalActionParameters, policy.AllowedAccessControls());
    assert op.consumes == old(op.consumes) && op.operationId == old(op.operationId);
    outcome := AddHttpIntegration(op, httpMethod, context, policy);
  }

  /** IOperationFilter.Apply: an OPTIONS operation becomes a CORS mock; any
      other operation gets the extra responses, the global parameters, the
      CORS headers on every response and an `http` proxy integration. */
  method Apply(op: Operation, settings: IntegrationSettings, httpMethod: string, context: RequestContext)
    returns (outcome: Outcome)
    modifies op, op.responses.Values
    modifies if httpMethod == OPTIONS_VERB then {} else MergedExtras(op.responses, settings.extraResponses)
    ensures httpMethod == OPTIONS_VERB ==>
      var policy := settings.allowedAccessControl;
      var names := policy.AllowedAccessControls();
      && op.responses == old(op.responses) && op.parameters == old(op.parameters)
      && (!old(OptionsHeadersAddable(op.responses, names)) ==>
            && outcome.Fail? && outcome.error.DuplicateKey? && outcome.error.key in names
            && op.consumes == old(op.consumes) && op.operationId == old(op.operationId)
            && op.vendorExtensions == old(op.vendorExtensions))
      && (old(OptionsHeadersAddable(op.responses, names)) ==>
            && (forall c :: c in op.responses ==>
                  && op.responses[c].headers == Some(WithCorsHeaders(old(op.responses[c].headers).GetOr(map[]), names))
                  && op.responses[c].vendorExtensions == Some(old(op.responses[c].vendorExtensions).GetOr(map[]))
                  && op.responses[c].description == old(op.responses[c].description))
            && op.consumes == old(op.consumes) + [APPLICATION_JSON, TEXT_JSON]
            && op.operationId == None
            && outcome == (if INTEGRATION_EXTENSION in old(op.vendorExtensions)
                           then Fail(DuplicateKey(INTEGRATION_EXTENSION)) else Pass)
            && op.vendorExtensions == (if outcome.Pass?
                                       then old(op.vendorExtensions)[INTEGRATION_EXTENSION := GatewayIntegration(MockIntegration(policy))]
                                       else old(op.vendorExtensions)))
    ensures httpMethod != OPTIONS_VERB ==>
      && op.consumes == old(op.consumes) && op.operationId == old(op.operationId)
      && op.responses.Keys == old(op.responses).Keys + old(settings.extraResponses).Keys
      && (forall c :: c in old(op.responses) ==> op.responses[c] == old(op.responses)[c])
      && (forall c :: c in old(settings.extraResponses) && c !in old(op.responses) ==>
            op.responses[c] == old(settings.extraResponses)[c])
      && op.parameters == Some(old(op.parameters).GetOr([]) + settings.globalActionParameters)
      && (forall c :: c in op.responses ==>
            var r := op.responses[c];
            && r.headers == Some(WithCorsHeaders(old(r.headers).GetOr(map[]),
                                                 settings.allowedAccessControl.AllowedAccessControls()))
            && r.vendorExtensions == Some(old(r.vendorExtensions).GetOr(map[]))
            && r.description.Some? && r.description.value in op.responses
            && op.responses[r.description.value] == r)
      && (DistinctResponses(op.responses) ==>
            forall c :: c in op.responses ==> op.responses[c].description == Some(c))
      && var integration := HttpIntegration(httpMethod, context, op.responses.Keys, op.parameters.GetOr([]),
                                            settings.allowedAccessControl);
         if integration.Err? then
           outcome == Fail(integration.error) && op.vendorExtensions == old(op.vendorExtensions)
         else if INTEGRATION_EXTENSION in old(op.vendorExtensions) then
           outcome == Fail(DuplicateKey(INTEGRATION_EXTENSION)) && op.vendorExtensions == old(op.vendorExtensions)
         else
           && outcome == Pass
           && op.vendorExtensions == old(op.vendorExtensions)[INTEGRATION_EXTENSION := GatewayIntegration(integration.value)]
  {
    var policy := settings.allowedAccessControl;
    if httpMethod == OPTIONS_VERB {
      outcome := CreateOptionsMethod(op, policy);
    } else {
      outcome := ProxyOperation(op, settings, httpMethod, context);
    }
  }
}
