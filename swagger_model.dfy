/**
  The part of the Swagger 2.0 (OpenAPI 2.0) object model that the API Gateway
  integration filter reads and writes: operations, responses, parameters and
  headers, the vendor-extension values the filter stores, and the outcomes of
  calls that can throw.
 */
module SwaggerModel {

  /** A reference or string that may be null. */
  datatype Option<+T> = None | Some(value: T) {
    /** The value, or `default` when absent (the `x ?? default` of the source). */
    function GetOr(default: T): T {
      match this
      case Some(v) => v
      case None => default
    }
  }

  /** The exceptions the modelled code can raise. */
  datatype Error =
    | InvalidArgument(message: string)  // ArgumentException raised by an explicit check
    | DuplicateKey(key: string)         // Dictionary.Add on a key that is already present

  /** The result of a computation that returns a value or throws. */
  datatype Result<+T> = Ok(value: T) | Err(error: Error)

  /** The result of a call that returns nothing or throws. */
  datatype Outcome = Pass | Fail(error: Error)

  /** A response header declaration; the filter only ever sets its type. */
  datatype Header = Header(headerType: string)

  /** An operation parameter: its name and its location (`in`: query, header, path, body, formData). */
  datatype Parameter = Parameter(name: string, location: string)

  /** One entry of the `responses` map of an API Gateway integration. */
  datatype GatewayResponse = GatewayResponse(statusCode: string, responseParameters: map<string, string>)

  /** The value stored under the `x-amazon-apigateway-integration` vendor extension. */
  datatype Integration =
    | Http(integrationType: string, httpMethod: string, uri: string,
           responses: map<string, GatewayResponse>, requestParameters: map<string, string>)
    | Mock(integrationType: string, responses: map<string, GatewayResponse>,
           passthroughBehavior: string, requestTemplates: map<string, string>)

  /** A vendor-extension value: one written by the filter, or any other JSON value. */
  datatype VendorValue = GatewayIntegration(integration: Integration) | OtherValue(json: string)

  /** A Swagger response object; `headers` and `vendorExtensions` may be null. */
  class Response {
    var description: Option<string>
    var headers: Option<map<string, Header>>
    var vendorExtensions: Option<map<string, VendorValue>>

    /** `new Response()`: no description and no headers. The extension
        dictionary starts out null or empty; which one is left open, since
        the filter treats the two alike. */
    constructor ()
      ensures description == None && headers == None
      ensures vendorExtensions == None || vendorExtensions == Some(map[])
    {
      description := None;
      headers := None;
      vendorExtensions := None;
    }
  }

  /** A Swagger operation object: one HTTP verb on one route. */
  class Operation {
    var responses: map<string, Response>
    var parameters: Option<seq<Parameter>>
    var vendorExtensions: map<string, VendorValue>
    var consumes: seq<string>
    var operationId: Option<string>

    constructor (responses: map<string, Response>, parameters: Option<seq<Parameter>>,
                 vendorExtensions: map<string, VendorValue>, consumes: seq<string>,
                 operationId: Option<string>)
      ensures this.responses == responses && this.parameters == parameters
      ensures this.vendorExtensions == vendorExtensions
      ensures this.consumes == consumes && this.operationId == operationId
    {
      this.responses := responses;
      this.parameters := parameters;
      this.vendorExtensions := vendorExtensions;
      this.consumes := consumes;
      this.operationId := operationId;
    }
  }

  /** No Response object is stored under two different status codes. */
  predicate DistinctResponses(responses: map<string, Response>) {
    forall c, d :: c in responses && d in responses && c != d ==> responses[c] != responses[d]
  }
}
