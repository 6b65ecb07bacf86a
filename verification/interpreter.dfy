/** What the generated helper does when it runs: `fillRequest` as the
    sequence of calls it makes on the request builder, `onResponse` as the
    action instance it leaves behind. */
module Interpreter {
  import opened Wrappers
  import opened ActionModel
  import opened Runtime
  import opened HeaderMaps
  import opened Decimal
  import opened Plan

  /** The `ActionBody` a part statement builds from the field value `v`. */
  function PartBodyTerm(b: PartBody, encoding: string, v: Term): Term {
    match b
    case FileBodyOf => FileBody(encoding, v)
    case BytesBodyOf => BytesArrayBody(encoding, v)
    case StringBytesBodyOf => BytesArrayBody(encoding, GetBytes(v))
    case FieldAsBody => v
  }

  /** The call inside a null guard, for the field value `v`. */
  function UseCall(u: FieldUse, v: Term): BuilderCall {
    match u
    case UsePathParam(name, encode) => CallAddPathParam(name, ToString(v), encode)
    case UsePart(name, body, encoding) => CallAddPart(name, PartBodyTerm(body, encoding, v), encoding)
    case UseHeader(name) => CallAddHeader(name, ToString(v))
    case UseField(name) => CallAddField(name, ToString(v))
    case UseQuery(name, encodeName, encodeValue) => CallAddQueryParam(name, ToString(v), encodeName, encodeValue)
  }

  /** The builder calls one `fillRequest` statement makes. */
  function ExecRequestStep(s: RequestStep, inst: Instance): seq<BuilderCall> {
    match s
    case SetMethod(m) => [CallSetMethod(m)]
    case SetRequestType(t) => [CallSetRequestType(t)]
    case SetPath(p) => [CallSetPath(p)]
    case IfNotNull(f, use) => if Get(inst, f) == Null then [] else [UseCall(use, Get(inst, f))]
    case AddPrimitiveQuery(name, f, encodeName, encodeValue) =>
      [CallAddQueryParam(name, StringValueOf(Get(inst, f)), encodeName, encodeValue)]
    case SetBody(f) => [CallSetBody(Get(inst, f))]
    case ReturnBuilder => []
  }

  /** The calls `fillRequest` makes: each statement's calls in order, up to
      `return requestBuilder`. */
  function RunRequest(ss: seq<RequestStep>, inst: Instance): seq<BuilderCall> {
    if ss == [] || ss[0] == ReturnBuilder then []
    else ExecRequestStep(ss[0], inst) + RunRequest(ss[1..], inst)
  }

  /** The local state of `onResponse`: the action and, once declared, the
      `headers` map. */
  datatype ResponseState = ResponseState(action: Instance, headers: Option<map<string, string>>)

  /** The value a `@Status` statement assigns. */
  function StatusValue(p: StatusProjection, resp: HttpResponse): Term {
    match p
    case IsSuccessful => Bool(resp.successful)
    case CastStatus(_) => Num(resp.status)
    case StatusToString => Str(IntToString(resp.status))
    case StatusAsLong => Num(resp.status)
  }

  /** The value a `@Response` statement assigns. */
  function BodyValue(c: BodyConversion, resp: HttpResponse): Term {
    match c
    case RawBody => resp.body
    case BodyToString => ToString(resp.body)
    case ConvertFromBody(t) => FromBody(resp.body, t)
  }

  /** `action.f = v` and `((Owner) action).f = v` both store into field `f`. */
  function Write(inst: Instance, target: Address, v: Term): Instance {
    inst[target.field := v]
  }

  /** One `onResponse` statement; None when it reads `headers` before the map
      is declared, which would not compile. */
  function ExecResponseStep(s: ResponseStep, st: ResponseState, resp: HttpResponse): Option<ResponseState> {
    match s
    case AssignStatus(target, p) => Some(st.(action := Write(st.action, target, StatusValue(p, resp))))
    case AssignBody(target, c) => Some(st.(action := Write(st.action, target, BodyValue(c, resp))))
    case IfStatusEquals(code, target, c) =>
      if resp.status == code then Some(st.(action := Write(st.action, target, BodyValue(c, resp))))
      else Some(st)
    case BuildHeaderMap => Some(st.(headers := Some(HeaderMapOf(resp.headers))))
    case AssignHeader(target, name) =>
      (match st.headers
       case None => None
       case Some(m) => Some(st.(action := Write(st.action, target, HeaderValue(m, name)))))
    case ReturnAction => Some(st)
  }

  /** Runs `onResponse`'s statements up to `return action`. */
  function RunResponse(ss: seq<ResponseStep>, st: ResponseState, resp: HttpResponse): Option<ResponseState> {
    if ss == [] || ss[0] == ReturnAction then Some(st)
    else
      match ExecResponseStep(ss[0], st, resp)
      case None => None
      case Some(next) => RunResponse(ss[1..], next, resp)
  }

  /** The action `onResponse` returns, starting with no header map. */
  function RunOnResponse(ss: seq<ResponseStep>, inst: Instance, resp: HttpResponse): Option<Instance> {
    match RunResponse(ss, ResponseState(inst, None), resp)
    case None => None
    case Some(st) => Some(st.action)
  }
}
