# API Gateway integration filter for Swashbuckle: a Dafny model

Swagger.Plugin.AWS is a Swashbuckle operation filter. It rewrites each Swagger
2.0 operation in place into the form that AWS API Gateway imports. The
operation gets an `x-amazon-apigateway-integration` vendor extension:

- an `http` proxy integration for an ordinary verb;
- a `mock` integration answering the CORS preflight request for an OPTIONS
  operation.

This project models the filter and the configuration object it reads. The
model is split into three modules:

- `SwaggerModel` (`swagger_model.dfy`): the slice of the Swagger object model
  that the filter touches.
  - `Response` and `Operation` are classes, because the filter updates their
    fields in place.
  - Parameters, headers and the integration descriptors are datatypes.
  - Each exception the code can raise becomes an `Outcome` or `Result` value.
  - A null reference becomes `Option`.
- `GatewaySettings` (`integration_settings.dfy`): `ApiGatewayIntegrationSettings`
  and its nested CORS policy `AccessControl`, as classes with the builder
  methods.
- `GatewayFilter` (`integration_filter.dfy`): the filter, written as methods
  with loops that mutate the operation, plus the functions and lemmas that
  specify them.
  - `GetAWSRequest` and `GetAWSResponse` are methods proved equal to the
    functions `RequestParameters` and `GatewayResponses`. The properties are
    proved about those functions.
  - Each loop over a .NET `Dictionary` picks its next key nondeterministically.
    Every contract therefore holds for any enumeration order.
  - One `Response` object may be stored under several status codes of an
    operation. The contracts cover that aliasing and do not exclude it.
  - The extra-response objects of the settings are shared by every
    operation, under the same code in each. The filter decorates them in
    place on the normal path, so `Apply` may modify them there. An extra
    response object that the operation neither holds nor merges is not
    modified; on the OPTIONS path no extra response is touched unless it is
    also one of the operation's own responses.

Every `Dictionary.Add` that can throw is modelled as an error outcome carrying
the duplicate key:

- a request parameter whose location and name repeat;
- a response already coded `default`;
- a CORS header already present on the OPTIONS path;
- an `x-amazon-apigateway-integration` key that is already there.

## Model

| member | source | states |
|---|---|---|
| SwaggerModel.Response.constructor | Swagger.Plugin/AWS/ApiGatewayIntegrationSettings.cs:48 | `new Response()` has no description and no headers, and its extension dictionary is null or empty |
| GatewaySettings.AccessControl.constructor | Swagger.Plugin/AWS/ApiGatewayIntegrationSettings.cs:89-125 | a fresh policy has all three switches off and all three values null |
| GatewaySettings.IntegrationSettings.constructor | Swagger.Plugin/AWS/ApiGatewayIntegrationSettings.cs:31-35 | new settings have no extra responses, no global parameters, and a fresh policy with every CORS header off |
| GatewaySettings.IntegrationSettings.AddResponse | Swagger.Plugin/AWS/ApiGatewayIntegrationSettings.cs:43-49 | a null or white-space code fails with the ArgumentException message and changes nothing; a code already present changes nothing, so nothing is overwritten; otherwise exactly that key is added, holding the given response, or a fresh Response without description or headers when none is given, and every other entry is kept |
| GatewaySettings.IntegrationSettings.AddGlobalActionParameter | Swagger.Plugin/AWS/ApiGatewayIntegrationSettings.cs:56-59 | a non-null parameter is appended at the end; null leaves the list unchanged |
| GatewaySettings.IntegrationSettings.AccessControlSettings | Swagger.Plugin/AWS/ApiGatewayIntegrationSettings.cs:61-64 | returns the settings' own policy object, not a copy |
| GatewaySettings.IsNullOrWhiteSpace | Swagger.Plugin/AWS/ApiGatewayIntegrationSettings.cs:44 | a code is rejected exactly when it is null or every character is .NET white space; null and the empty string are rejected |
| GatewaySettings.DigitCodeNotBlank | Swagger.Plugin/AWS/ApiGatewayIntegrationSettings.cs:44 | a non-empty status code written in digits, such as `200`, is never rejected as blank |
| GatewaySettings.AccessControl.AllowedAccessControls | Swagger.Plugin/AWS/ApiGatewayIntegrationSettings.cs:132-143 | a name is listed exactly when its switch is on; names come strictly in the order Origin, Methods, Headers, so none repeats; the length is the number of switches that are on |
| GatewaySettings.AccessControl.AllowHeadersWithValue | Swagger.Plugin/AWS/ApiGatewayIntegrationSettings.cs:151-156 | switches Allow-Headers on with the value as given; the other two switches and values are unchanged; returns the same object |
| GatewaySettings.AccessControl.AllowMethodWithValue | Swagger.Plugin/AWS/ApiGatewayIntegrationSettings.cs:164-168 | switches Allow-Methods on with the value as given; the other two are unchanged; returns the same object |
| GatewaySettings.AccessControl.AllowOriginWithValue | Swagger.Plugin/AWS/ApiGatewayIntegrationSettings.cs:176-180 | switches Allow-Origin on with the value as given; the other two are unchanged; returns the same object |
| GatewayFilter.TrimEnd | Swagger.Plugin/AWS/ApiGatewayIntegrationFilter.cs:67 | the virtual path loses exactly its trailing run of `/`: the result is a prefix, does not end in `/`, and everything cut off is `/` |
| GatewayFilter.Uri | Swagger.Plugin/AWS/ApiGatewayIntegrationFilter.cs:67 | the uri starts with `{scheme}://{host}` and ends with `/{relative path}` |
| GatewayFilter.UriIgnoresTrailingSlash | Swagger.Plugin/AWS/ApiGatewayIntegrationFilter.cs:67 | a trailing `/` on the virtual path does not change the uri, so the root path `/` gives no double slash |
| GatewayFilter.MappedParameters | Swagger.Plugin/AWS/ApiGatewayIntegrationFilter.cs:85-94 | the parameters the request mapping looks at are exactly the query and header parameters |
| GatewayFilter.RequestKeyInjective | Swagger.Plugin/AWS/ApiGatewayIntegrationFilter.cs:86-93 | two query or header parameters get the same `integration.request.{kind}.{name}` key exactly when they share location and name |
| GatewayFilter.RequestParametersFromOk | Swagger.Plugin/AWS/ApiGatewayIntegrationFilter.cs:84-95 | adding parameters one by one with `Add` succeeds exactly when no query or header parameter repeats a location and name or hits a key already present |
| GatewayFilter.RequestParametersFromEntries | Swagger.Plugin/AWS/ApiGatewayIntegrationFilter.cs:84-95 | a successful build keeps what was there and adds one `integration.request.{kind}.{name}` ↦ `method.request.{kind}.{name}` entry per query or header parameter, with nothing for path, body or formData |
| GatewayFilter.RequestParametersFromSize | Swagger.Plugin/AWS/ApiGatewayIntegrationFilter.cs:84-95 | a successful build grows by exactly the number of query and header parameters |
| GatewayFilter.RequestParametersSpec | Swagger.Plugin/AWS/ApiGatewayIntegrationFilter.cs:78-98 | the request mapping exists if and only if no query or header parameter repeats; it then holds exactly one entry per such parameter, with the `querystring`/`header` key and value formats |
| GatewayFilter.GetAwsRequest | Swagger.Plugin/AWS/ApiGatewayIntegrationFilter.cs:78-98 | the loop, including the early return for a null or empty list, computes the request mapping of the operation's parameters or fails on the first repeated key |
| GatewayFilter.ResponseHeaderParametersDistinct | Swagger.Plugin/AWS/ApiGatewayIntegrationFilter.cs:104-111 | the three `method.response.header.*` keys are pairwise distinct, so building responseParameters never throws |
| GatewayFilter.ResponseParameters | Swagger.Plugin/AWS/ApiGatewayIntegrationFilter.cs:102-111 | the keys are `method.response.header.{name}` for exactly the enabled CORS headers, each mapped to its configured value in single quotes; the OPTIONS path (lines 157-164) uses the same function, so both paths emit the same map |
| GatewayFilter.GatewayResponses | Swagger.Plugin/AWS/ApiGatewayIntegrationFilter.cs:113-125 | succeeds exactly when no response is coded `default`, and otherwise fails on the key `default`; the keys are the codes plus `default`; each code carries itself as status code, `default` carries `200`, and all share the same responseParameters |
| GatewayFilter.GetAwsResponse | Swagger.Plugin/AWS/ApiGatewayIntegrationFilter.cs:100-128 | the loop over the responses, in any enumeration order, computes that response mapping |
| GatewayFilter.HttpIntegration | Swagger.Plugin/AWS/ApiGatewayIntegrationFilter.cs:63-70 | the `http` descriptor exists exactly when no response is coded `default` and no request parameter repeats; the `default` error comes first, as the responses are built before the request parameters; the descriptor has type `http`, the given verb, the uri, the codes plus `default` as response keys, the CORS response parameters on every response, and one request key per query or header parameter |
| GatewayFilter.MockIntegration | Swagger.Plugin/AWS/ApiGatewayIntegrationFilter.cs:146-178 | the `mock` descriptor has exactly one response, `default` at status `200` with the CORS response parameters, passthrough `when_no_match`, and exactly one request template, `application/json` ↦ `{"statusCode": 200}` |
| GatewayFilter.CorsParametersShared | Swagger.Plugin/AWS/ApiGatewayIntegrationFilter.cs:104-111 | every response of the `http` descriptor carries the same CORS response parameters as the `mock` descriptor built at lines 157-164, so both paths emit identical maps; the two source blocks are textually identical and the model defines them once, so this holds by construction |
| GatewayFilter.WithCorsHeaders | Swagger.Plugin/AWS/ApiGatewayIntegrationFilter.cs:56-59 | the headers afterwards are the old ones plus every enabled CORS name; existing entries are kept as they were, and only missing names get a `string` header |
| GatewayFilter.WithCorsHeadersIdempotent | Swagger.Plugin/AWS/ApiGatewayIntegrationFilter.cs:56-59 | adding the CORS headers twice equals adding them once, so a response object visited under two codes ends up the same |
| GatewayFilter.WithCorsHeadersSnoc | Swagger.Plugin/AWS/ApiGatewayIntegrationFilter.cs:57-58 | one more name adds its `string` header exactly when the name is still missing: one iteration of the guarded inner loop |
| GatewayFilter.DecorateResponse | Swagger.Plugin/AWS/ApiGatewayIntegrationFilter.cs:46-59 | one pass of the normal loop: null headers and extensions become empty maps, the description becomes the code, and the CORS headers are added where missing |
| GatewayFilter.DecorateOptionsResponse | Swagger.Plugin/AWS/ApiGatewayIntegrationFilter.cs:133-143 | one pass of the OPTIONS loop succeeds exactly when none of the CORS names is declared yet; null extensions become empty and the description is untouched either way; on success all CORS headers are added; on failure the key is the first CORS name already declared, and exactly the names before it were added |
| GatewayFilter.StoppedAtFirstDeclared | Swagger.Plugin/AWS/ApiGatewayIntegrationFilter.cs:133-143 | the failure state of one OPTIONS pass names a single key: the first CORS name, in policy order, that the response already declared |
| GatewayFilter.DecorateResponses | Swagger.Plugin/AWS/ApiGatewayIntegrationFilter.cs:44-61 | every response ends up with non-null extensions, its old headers plus the CORS headers, and a description that is a code under which that very object is stored; when no object is stored twice, the description is its own code |
| GatewayFilter.DecorateOptionsResponses | Swagger.Plugin/AWS/ApiGatewayIntegrationFilter.cs:131-144 | the OPTIONS loop succeeds exactly when there are no CORS names, or no object is stored twice and no response already declares a CORS name; a failure is a duplicate CORS name; on success every response has its headers extended, its extensions non-null and its description unchanged |
| GatewayFilter.MergeExtraResponses | Swagger.Plugin/AWS/ApiGatewayIntegrationFilter.cs:30-34 | the codes become the old codes plus the extra codes; an operation's own response wins on a clash; new codes hold the configured response object |
| GatewayFilter.AppendGlobalParameters | Swagger.Plugin/AWS/ApiGatewayIntegrationFilter.cs:36-42 | the parameter list becomes non-null and equals the old list, or the empty list, followed by the global parameters in order |
| GatewayFilter.DecorateOperation | Swagger.Plugin/AWS/ApiGatewayIntegrationFilter.cs:29-61 | the normal path before the integration: the merged codes, the appended parameters, and every response decorated as `DecorateResponses` states |
| GatewayFilter.AddHttpIntegration | Swagger.Plugin/AWS/ApiGatewayIntegrationFilter.cs:63-70 | stores the `http` descriptor of the decorated operation under `x-amazon-apigateway-integration`; fails with the descriptor's error, or with that key when it is already present, and then leaves the extensions unchanged |
| GatewayFilter.AddMockIntegration | Swagger.Plugin/AWS/ApiGatewayIntegrationFilter.cs:146-178 | appends `application/json` then `text/json` to consumes and clears the operation id; stores the `mock` descriptor (one `default` response at `200`, passthrough `when_no_match`, template `{"statusCode": 200}`) unless the key is already present, which fails |
| GatewayFilter.CreateOptionsMethod | Swagger.Plugin/AWS/ApiGatewayIntegrationFilter.cs:130-179 | responses and parameters are untouched; a CORS header already present fails with a `DuplicateKey` on one of the CORS names before consumes, the operation id or the extensions change; otherwise it has the effect of both phases above |
| GatewayFilter.ProxyOperation | Swagger.Plugin/AWS/ApiGatewayIntegrationFilter.cs:29-70 | the non-OPTIONS path: consumes and the operation id are unchanged; the merged responses, the appended parameters and the decorated responses as above; then the `http` descriptor of the result is stored, or the first error is returned; only extra responses that are merged can change |
| GatewayFilter.Apply | Swagger.Plugin/AWS/ApiGatewayIntegrationFilter.cs:23-71 | OPTIONS neither merges responses nor appends parameters and states everything `CreateOptionsMethod` does: the CORS headers on every response, the JSON types appended to consumes, no operation id, the `mock` descriptor, and the failure when a CORS header or the extension key is already present. Any other verb does what `ProxyOperation` states and leaves consumes and the operation id alone. Only the operation's own response objects, and on the normal path the extra responses it merges, may change: an extra response object that the operation neither holds nor merges is not modified, and on OPTIONS no extra response outside the operation is |

## Left out

- The uri's ambient inputs are not read from the environment. The request scheme and host, the application virtual path and the relative path without the query string are fields of `RequestContext`. Only the `TrimEnd('/')` and the concatenation are modelled.
- The `ToUpper()` of the HTTP method is not modelled, because .NET casing is culture-dependent. The verb is taken as already upper-cased, and the OPTIONS test is a comparison with `"OPTIONS"`.
- The static `IntegrationSettings` property is not modelled. `Apply` takes the settings as an argument.
- Swashbuckle's registration of the filter, `SchemaRegistry`, `ApiDescription` and `HttpMethod` are not part of this model. Only the fields the filter reads or writes are kept.
- The anonymous descriptor objects become the `Integration` datatype. Their JSON serialisation is not modelled.
- Dictionary insertion and enumeration order is not modelled. Headers, responses and vendor extensions are maps.
  - The Origin, Methods, Headers order of the CORS names is kept by `AllowedAccessControls`.
  - The order in which those headers land in a response's header dictionary is not kept.
- `operation.responses`, `operation.consumes` and `operation.vendorExtensions` are never null in the model, because the filter dereferences them unguarded. A null there is a NullReferenceException that is not modelled.
- Parameter names and locations are never null in the model. A response object or parameter in a map or list is never null either.
- A response's `headers` and `vendorExtensions` are .NET dictionaries, that is references, but the model keeps them as values inside the `Response` object. Two distinct `Response` objects that share one headers dictionary are therefore not captured. On the OPTIONS path such sharing makes the second unguarded `headers.Add` throw, which the model does not predict.
- GatewayFilter.DecorateOptionsResponses: when it fails, the contract does not say how far the response objects had already been changed. The source leaves the responses visited earlier decorated and the failing one partly decorated, as `DecorateOptionsResponse` states for a single response. Which responses came earlier depends on the dictionary's enumeration order, which the model leaves open.
- GatewayFilter.CreateOptionsMethod: when a CORS header is already present, the contract states that the error is a `DuplicateKey` on one of the CORS names, not which one (that depends on which response is visited first, and on an object stored under two codes failing on its second visit), and that consumes, the operation id and the extensions are unchanged, but not the state of the response objects. As for `DecorateOptionsResponses`, that state depends on the enumeration order.
- GatewayFilter.Apply: on the OPTIONS path, failure leaves the response objects as unstated as in `CreateOptionsMethod`.

How the code throws and what it changes in place, as the model follows it:

- Both integrations are stored with `Dictionary.Add` (`ApiGatewayIntegrationFilter.cs:63` and `:172`), which throws on an existing `x-amazon-apigateway-integration` key. The model then fails with `DuplicateKey`, and the extension is not replaced.
- On the normal path the extra `Response` objects of the settings are decorated in place. The settings therefore change through every operation they are merged into, which is why `Apply` may modify them.
- A throw leaves a partly changed operation:
  - On the normal path, the responses and parameters have already been updated when the descriptor fails. The contracts state that state.
  - On the OPTIONS path, some responses may already be decorated when a header is found twice. The contracts leave that state open, as listed above.
