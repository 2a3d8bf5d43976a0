/**
  The configuration shared by every run of the API Gateway integration filter:
  responses to add to every operation, parameters to add to every operation,
  and the CORS policy (which Access-Control-Allow-* headers are emitted, and
  with which literal values).
 */
module GatewaySettings {
  import opened SwaggerModel

  const ACCESS_CONTROL_ALLOW_HEADERS := "Access-Control-Allow-Headers"
  const ACCESS_CONTROL_ALLOW_METHODS := "Access-Control-Allow-Methods"
  const ACCESS_CONTROL_ALLOW_ORIGIN := "Access-Control-Allow-Origin"

  /** The message of the ArgumentException raised by AddResponse. */
  const EMPTY_RESPONSE_CODE_MESSAGE := "response can not be empty!"

  /** The characters .NET's Char.IsWhiteSpace accepts: the Unicode separators
      (Zs, Zl, Zp) plus U+0009..U+000D and U+0085. */
  predicate IsWhiteSpace(c: char) {
    || ('\U{9}' <= c <= '\U{D}')
    || c == '\U{20}' || c == '\U{85}' || c == '\U{A0}' || c == '\U{1680}'
    || ('\U{2000}' <= c <= '\U{200A}')
    || c == '\U{2028}' || c == '\U{2029}' || c == '\U{202F}' || c == '\U{205F}' || c == '\U{3000}'
  }

  /** string.IsNullOrWhiteSpace: null, empty, or white space only. */
  predicate IsNullOrWhiteSpace(s: Option<string>): (blank: bool)
    ensures s == None || s == Some("") ==> blank
    ensures blank <==> s.None? || forall c :: c in s.value ==> IsWhiteSpace(c)
  {
    match s
    case None => true
    case Some(text) => forall i :: 0 <= i < |text| ==> IsWhiteSpace(text[i])
  }

  /** A status code written in digits, such as "200" or "404", is never blank. */
  lemma DigitCodeNotBlank(code: string)
    requires |code| > 0 && forall i :: 0 <= i < |code| ==> '0' <= code[i] <= '9'
    ensures !IsNullOrWhiteSpace(Some(code))
  {
    assert !IsWhiteSpace(code[0]);
  }

  /** Position of a CORS header name in the emission order Origin, Methods, Headers. */
  function EmissionRank(name: string): nat {
    if name == ACCESS_CONTROL_ALLOW_ORIGIN then 0
    else if name == ACCESS_CONTROL_ALLOW_METHODS then 1
    else 2
  }

  function CountIf(b: bool): nat { if b then 1 else 0 }

  /** The CORS policy: three independent switches, each with the literal
      header value the gateway returns when it is on. */
  class AccessControl {
    var allowHeaders: bool
    var allowMethods: bool
    var allowOrigin: bool
    var headerValue: Option<string>
    var methodValue: Option<string>
    var originValue: Option<string>

    /** A fresh policy has every header switched off and every value null. */
    constructor ()
      ensures !allowHeaders && !allowMethods && !allowOrigin
      ensures headerValue == None && methodValue == None && originValue == None
    {
      allowHeaders, allowMethods, allowOrigin := false, false, false;
      headerValue, methodValue, originValue := None, None, None;
    }

    /** The names of the enabled CORS headers, Origin before Methods before Headers. */
    function AllowedAccessControls(): (names: seq<string>)
      reads this
      ensures forall n :: n in names <==>
        || (n == ACCESS_CONTROL_ALLOW_ORIGIN && allowOrigin)
        || (n == ACCESS_CONTROL_ALLOW_METHODS && allowMethods)
        || (n == ACCESS_CONTROL_ALLOW_HEADERS && allowHeaders)
      ensures forall i, j :: 0 <= i < j < |names| ==> EmissionRank(names[i]) < EmissionRank(names[j])
      ensures |names| == CountIf(allowOrigin) + CountIf(allowMethods) + CountIf(allowHeaders)
    {
      (if allowOrigin then [ACCESS_CONTROL_ALLOW_ORIGIN] else [])
      + (if allowMethods then [ACCESS_CONTROL_ALLOW_METHODS] else [])
      + (if allowHeaders then [ACCESS_CONTROL_ALLOW_HEADERS] else [])
    }

    /** Switches Access-Control-Allow-Headers on with `value`; returns this policy for chaining. */
    method AllowHeadersWithValue(value: Option<string>) returns (self: AccessControl)
      modifies this
      ensures self == this
      ensures allowHeaders && headerValue == value
      ensures allowMethods == old(allowMethods) && methodValue == old(methodValue)
      ensures allowOrigin == old(allowOrigin) && originValue == old(originValue)
    {
      allowHeaders := true;
      headerValue := value;
      self := this;
    }

    /** Switches Access-Control-Allow-Methods on with `value`; returns this policy for chaining. */
    method AllowMethodWithValue(value: Option<string>) returns (self: AccessControl)
      modifies this
      ensures self == this
      ensures allowMethods && methodValue == value
      ensures allowHeaders == old(allowHeaders) && headerValue == old(headerValue)
      ensures allowOrigin == old(allowOrigin) && originValue == old(originValue)
    {
      allowMethods := true;
      methodValue := value;
      self := this;
    }

    /** Switches Access-Control-Allow-Origin on with `value`; returns this policy for chaining. */
    method AllowOriginWithValue(value: Option<string>) returns (self: AccessControl)
      modifies this
      ensures self == this
      ensures allowOrigin && originValue == value
      ensures allowHeaders == old(allowHeaders) && headerValue == old(headerValue)
      ensures allowMethods == old(allowMethods) && methodValue == old(methodValue)
    {
      allowOrigin := true;
      originValue := value;
      self := this;
    }
  }

  /** ApiGatewayIntegrationSettings: extra responses keyed by status code, global
      parameters in insertion order, and the one CORS policy object. */
  class IntegrationSettings {
    var extraResponses: map<string, Response>
    var globalActionParameters: seq<Parameter>
    var allowedAccessControl: AccessControl

    constructor ()
      ensures extraResponses == map[] && globalActionParameters == []
      ensures fresh(allowedAccessControl)
      ensures !allowedAccessControl.allowHeaders && !allowedAccessControl.allowMethods
      ensures !allowedAccessControl.allowOrigin
    {
      extraResponses := map[];
      allowedAccessControl := new AccessControl();
      globalActionParameters := [];
    }

    /** Registers `response` (a fresh empty Response when null) under `code`
        unless `code` is already registered; a null or blank code is rejected. */
    method AddResponse(code: Option<string>, response: Response?) returns (outcome: Outcome)
      modifies this`extraResponses
      ensures IsNullOrWhiteSpace(code) ==>
        outcome == Fail(InvalidArgument(EMPTY_RESPONSE_CODE_MESSAGE)) && extraResponses == old(extraResponses)
      ensures !IsNullOrWhiteSpace(code) && code.value in old(extraResponses) ==>
        outcome == Pass && extraResponses == old(extraResponses)
      ensures !IsNullOrWhiteSpace(code) && code.value !in old(extraResponses) ==>
        && outcome == Pass
        && extraResponses.Keys == old(extraResponses).Keys + {code.value}
        && (forall c :: c in old(extraResponses) ==> extraResponses[c] == old(extraResponses)[c])
        && (response != null ==> extraResponses[code.value] == response)
        && (response == null ==>
              && fresh(extraResponses[code.value])
              && extraResponses[code.value].description == None
              && extraResponses[code.value].headers == None)
    {
      if IsNullOrWhiteSpace(code) {
        return Fail(InvalidArgument(EMPTY_RESPONSE_CODE_MESSAGE));
      }
      if code.value !in extraResponses {
        var stored := response;
        if stored == null {
          stored := new Response();
        }
        extraResponses := extraResponses[code.value := stored];
      }
      outcome := Pass;
    }

    /** Appends a non-null parameter to the global parameters; null is ignored. */
    method AddGlobalActionParameter(parameter: Option<Parameter>)
      modifies this`globalActionParameters
      ensures parameter.Some? ==> globalActionParameters == old(globalActionParameters) + [parameter.value]
      ensures parameter.None? ==> globalActionParameters == old(globalActionParameters)
    {
      if parameter.Some? {
        globalActionParameters := globalActionParameters + [parameter.value];
      }
    }

    /** The settings' own CORS policy object (not a copy), for fluent configuration. */
    method AccessControlSettings() returns (policy: AccessControl)
      ensures policy == allowedAccessControl
    {
      policy := allowedAccessControl;
    }
  }
}
