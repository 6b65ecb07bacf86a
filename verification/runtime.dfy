/** The run-time world the generated helper works in: field values of an
    action instance, the HTTP response, and the calls made on the request
    builder. Values are symbolic: a conversion the generator does not define
    (`toString()`, `getBytes()`, the converter, `headers.make`) is kept as a
    term naming the conversion and its operand. */
module Runtime {
  import opened JavaTypes
  import opened ActionModel

  datatype Term =
    | Null
      /** A non-null value supplied by the caller, told apart by its id. */
    | Obj(id: nat)
    | Bool(b: bool)
    | Num(n: int)
    | Str(s: string)
      /** `x.toString()` */
    | ToString(of: Term)
      /** `String.valueOf(x)` */
    | StringValueOf(of: Term)
      /** `x.getBytes()` */
    | GetBytes(of: Term)
      /** `new FileBody(encoding, file)` */
    | FileBody(encoding: string, file: Term)
      /** `new BytesArrayBody(encoding, bytes)` */
    | BytesArrayBody(encoding: string, bytes: Term)
      /** `converter.fromBody(body, <type token of target>)` */
    | FromBody(body: Term, target: JType)
      /** `headers.make(name)` on the header map built from the response */
    | HeaderValue(headers: map<string, string>, name: string)

  /** An action instance: field name to value. A field that is absent holds
      the default value of a reference field, null. */
  type Instance = map<string, Term>

  function Get(inst: Instance, f: string): Term {
    if f in inst then inst[f] else Null
  }

  datatype Header = Header(name: string, value: string)

  /** What `onResponse` reads from `io.techery.janet.http.model.Response`. */
  datatype HttpResponse = HttpResponse(
    status: int,
    successful: bool,
    body: Term,
    headers: seq<Header>)

  /** One call on the `RequestBuilder`. */
  datatype BuilderCall =
    | CallSetMethod(httpMethod: Method)
    | CallSetRequestType(requestType: RequestType)
    | CallSetPath(path: string)
    | CallAddPathParam(name: string, value: Term, encode: bool)
    | CallAddPart(name: string, body: Term, encoding: string)
    | CallAddHeader(name: string, value: Term)
    | CallAddField(name: string, value: Term)
    | CallAddQueryParam(name: string, value: Term, encodeName: bool, encodeValue: bool)
    | CallSetBody(body: Term)

  /** Evaluating `t` never calls a method on null: every receiver of
      `toString()` or `getBytes()` and every content of a body wrapper is
      non-null. */
  predicate NullSafe(t: Term) {
    match t
    case ToString(x) => x != Null && NullSafe(x)
    case StringValueOf(x) => NullSafe(x)
    case GetBytes(x) => x != Null && NullSafe(x)
    case FileBody(_, x) => x != Null && NullSafe(x)
    case BytesArrayBody(_, x) => x != Null && NullSafe(x)
    case FromBody(x, _) => NullSafe(x)
    case _ => true
  }
}
