/** The statements of a generated helper, one datatype value per emitted
    statement: `RequestStep`s make up `fillRequest`, `ResponseStep`s make up
    `onResponse`. */
module Plan {
  import opened JavaTypes
  import opened ActionModel

  /** How a `@Part` field becomes the part's `ActionBody`. */
  datatype PartBody =
    | FileBodyOf         // new FileBody(encoding, action.f)
    | BytesBodyOf        // new BytesArrayBody(encoding, action.f)
    | StringBytesBodyOf  // new BytesArrayBody(encoding, action.f.getBytes())
    | FieldAsBody        // action.f itself

  /** The builder call inside an `if (action.f != null)` block. */
  datatype FieldUse =
    | UsePathParam(name: string, encode: bool)
    | UsePart(name: string, body: PartBody, encoding: string)
    | UseHeader(name: string)
    | UseField(name: string)
    | UseQuery(name: string, encodeName: bool, encodeValue: bool)

  datatype RequestStep =
    | SetMethod(httpMethod: Method)
    | SetRequestType(requestType: RequestType)
    | SetPath(path: string)
      /** `if (action.f != null) { <use> }` */
    | IfNotNull(field: string, use: FieldUse)
      /** `addQueryParam(name, String.valueOf(action.f), ...)`, unguarded */
    | AddPrimitiveQuery(name: string, field: string, encodeName: bool, encodeValue: bool)
      /** `setBody(action.f)`, unguarded */
    | SetBody(field: string)
    | ReturnBuilder

  /** The left-hand side of a write into the action: `action.f`, or
      `((Owner) action).f` for a field declared on a superclass. */
  datatype Address = Direct(field: string) | ViaCast(owner: string, field: string)

  /** The right-hand side of a `@Status` assignment. */
  datatype StatusProjection =
    | IsSuccessful          // response.isSuccessful()
    | CastStatus(to: JType) // (T) response.getStatus()
    | StatusToString        // Integer.toString(response.getStatus())
    | StatusAsLong          // (long) response.getStatus()

  /** The right-hand side of a `@Response` assignment. */
  datatype BodyConversion =
    | RawBody                   // response.getBody()
    | BodyToString              // response.getBody().toString()
    | ConvertFromBody(to: JType) // (T) converter.fromBody(response.getBody(), T)

  datatype ResponseStep =
    | AssignStatus(target: Address, projection: StatusProjection)
    | AssignBody(target: Address, conversion: BodyConversion)
      /** `if (response.getStatus() == status) { <target> = <conversion>; }` */
    | IfStatusEquals(status: int, target: Address, conversion: BodyConversion)
      /** declares `headers` and puts every response header into it */
    | BuildHeaderMap
    | AssignHeader(target: Address, header: string)
    | ReturnAction

  /** The position of a statement's group in `fillRequest`. */
  function RequestRank(s: RequestStep): nat {
    match s
    case SetMethod(_) => 0
    case SetRequestType(_) => 1
    case SetPath(_) => 2
    case IfNotNull(_, use) =>
      (match use
       case UsePathParam(_, _) => 3
       case UsePart(_, _, _) => 4
       case UseHeader(_) => 5
       case UseField(_) => 6
       case UseQuery(_, _, _) => 7)
    case AddPrimitiveQuery(_, _, _, _) => 7
    case SetBody(_) => 8
    case ReturnBuilder => 9
  }

  /** The position of a statement's group in `onResponse`. */
  function ResponseRank(s: ResponseStep): nat {
    match s
    case AssignStatus(_, _) => 0
    case AssignBody(_, _) => 1
    case IfStatusEquals(_, _, _) => 1
    case BuildHeaderMap => 2
    case AssignHeader(_, _) => 3
    case ReturnAction => 4
  }

  /** The action field a request statement reads, if any. */
  function ReadField(s: RequestStep): seq<string> {
    match s
    case IfNotNull(f, _) => [f]
    case AddPrimitiveQuery(_, f, _, _) => [f]
    case SetBody(f) => [f]
    case _ => []
  }

  /** The action field a response statement writes, if any. */
  function WrittenField(s: ResponseStep): seq<string> {
    match s
    case AssignStatus(t, _) => [t.field]
    case AssignBody(t, _) => [t.field]
    case IfStatusEquals(_, t, _) => [t.field]
    case AssignHeader(t, _) => [t.field]
    case _ => []
  }

  /** The response statements that write into the action. */
  predicate HasTarget(s: ResponseStep) {
    s.AssignStatus? || s.AssignBody? || s.IfStatusEquals? || s.AssignHeader?
  }

  /** How many times `headers` is declared. */
  function HeaderMapCount(ss: seq<ResponseStep>): nat {
    if ss == [] then 0 else (if ss[0].BuildHeaderMap? then 1 else 0) + HeaderMapCount(ss[1..])
  }

  lemma {:induction false} HeaderMapCountAppend(xs: seq<ResponseStep>, ys: seq<ResponseStep>)
    ensures HeaderMapCount(xs + ys) == HeaderMapCount(xs) + HeaderMapCount(ys)
  {
    if xs == [] {
      assert xs + ys == ys;
    } else {
      assert (xs + ys)[1..] == xs[1..] + ys;
      HeaderMapCountAppend(xs[1..], ys);
    }
  }

  lemma {:induction false} HeaderMapCountNone(ss: seq<ResponseStep>)
    requires forall i :: 0 <= i < |ss| ==> ss[i] != BuildHeaderMap
    ensures HeaderMapCount(ss) == 0
  {
    if ss != [] {
      HeaderMapCountNone(ss[1..]);
    }
  }

  /** Statements never go back to an earlier group. */
  predicate RequestOrdered(ss: seq<RequestStep>) {
    forall i, j :: 0 <= i < j < |ss| ==> RequestRank(ss[i]) <= RequestRank(ss[j])
  }

  predicate ResponseOrdered(ss: seq<ResponseStep>) {
    forall i, j :: 0 <= i < j < |ss| ==> ResponseRank(ss[i]) <= ResponseRank(ss[j])
  }

  /** No statement of `ss` is `return action`. */
  predicate NoReturn(ss: seq<ResponseStep>) {
    forall i :: 0 <= i < |ss| ==> ss[i] != ReturnAction
  }

  lemma NoReturnAppend(xs: seq<ResponseStep>, ys: seq<ResponseStep>)
    requires NoReturn(xs) && NoReturn(ys)
    ensures NoReturn(xs + ys)
  {
    forall i | 0 <= i < |xs + ys|
      ensures (xs + ys)[i] != ReturnAction
    {
      if i < |xs| {
        assert (xs + ys)[i] == xs[i];
      } else {
        assert (xs + ys)[i] == ys[i - |xs|];
      }
    }
  }

  /** Every statement of `ss` is in a group from `lo` to `hi`. */
  predicate RequestRanksIn(ss: seq<RequestStep>, lo: nat, hi: nat) {
    forall i :: 0 <= i < |ss| ==> lo <= RequestRank(ss[i]) <= hi
  }

  predicate ResponseRanksIn(ss: seq<ResponseStep>, lo: nat, hi: nat) {
    forall i :: 0 <= i < |ss| ==> lo <= ResponseRank(ss[i]) <= hi
  }

  /** An ordered run followed by an ordered run of later groups is ordered. */
  lemma RequestRunsJoin(xs: seq<RequestStep>, ys: seq<RequestStep>, lo: nat, m1: nat, m2: nat, hi: nat)
    requires RequestOrdered(xs) && RequestRanksIn(xs, lo, m1)
    requires RequestOrdered(ys) && RequestRanksIn(ys, m2, hi)
    requires lo <= m1 <= m2 <= hi
    ensures RequestOrdered(xs + ys) && RequestRanksIn(xs + ys, lo, hi)
  {
    var x := xs + ys;
    forall i | 0 <= i < |x|
      ensures lo <= RequestRank(x[i]) <= hi
    {
      if i < |xs| {
        assert x[i] == xs[i];
      } else {
        assert x[i] == ys[i - |xs|];
      }
    }
    forall i, j | 0 <= i < j < |x|
      ensures RequestRank(x[i]) <= RequestRank(x[j])
    {
      if i >= |xs| {
        assert x[i] == ys[i - |xs|] && x[j] == ys[j - |xs|];
      } else if j >= |xs| {
        assert x[i] == xs[i] && x[j] == ys[j - |xs|];
      } else {
        assert x[i] == xs[i] && x[j] == xs[j];
      }
    }
  }

  lemma ResponseRunsJoin(xs: seq<ResponseStep>, ys: seq<ResponseStep>, lo: nat, m1: nat, m2: nat, hi: nat)
    requires ResponseOrdered(xs) && ResponseRanksIn(xs, lo, m1)
    requires ResponseOrdered(ys) && ResponseRanksIn(ys, m2, hi)
    requires lo <= m1 <= m2 <= hi
    ensures ResponseOrdered(xs + ys) && ResponseRanksIn(xs + ys, lo, hi)
  {
    var x := xs + ys;
    forall i | 0 <= i < |x|
      ensures lo <= ResponseRank(x[i]) <= hi
    {
      if i < |xs| {
        assert x[i] == xs[i];
      } else {
        assert x[i] == ys[i - |xs|];
      }
    }
    forall i, j | 0 <= i < j < |x|
      ensures ResponseRank(x[i]) <= ResponseRank(x[j])
    {
      if i >= |xs| {
        assert x[i] == ys[i - |xs|] && x[j] == ys[j - |xs|];
      } else if j >= |xs| {
        assert x[i] == xs[i] && x[j] == ys[j - |xs|];
      } else {
        assert x[i] == xs[i] && x[j] == xs[j];
      }
    }
  }

  /** The fields read by the statements of group `g`, in statement order. */
  function FieldsInRequestGroup(ss: seq<RequestStep>, g: nat): seq<string> {
    if ss == [] then []
    else (if RequestRank(ss[0]) == g then ReadField(ss[0]) else []) + FieldsInRequestGroup(ss[1..], g)
  }

  /** The fields written by the statements of group `g`, in statement order. */
  function FieldsInResponseGroup(ss: seq<ResponseStep>, g: nat): seq<string> {
    if ss == [] then []
    else (if ResponseRank(ss[0]) == g then WrittenField(ss[0]) else []) + FieldsInResponseGroup(ss[1..], g)
  }

  lemma {:induction false} RequestGroupAppend(xs: seq<RequestStep>, ys: seq<RequestStep>, g: nat)
    ensures FieldsInRequestGroup(xs + ys, g) == FieldsInRequestGroup(xs, g) + FieldsInRequestGroup(ys, g)
  {
    if xs == [] {
      assert xs + ys == ys;
    } else {
      assert (xs + ys)[1..] == xs[1..] + ys;
      RequestGroupAppend(xs[1..], ys, g);
    }
  }

  lemma {:induction false} ResponseGroupAppend(xs: seq<ResponseStep>, ys: seq<ResponseStep>, g: nat)
    ensures FieldsInResponseGroup(xs + ys, g) == FieldsInResponseGroup(xs, g) + FieldsInResponseGroup(ys, g)
  {
    if xs == [] {
      assert xs + ys == ys;
    } else {
      assert (xs + ys)[1..] == xs[1..] + ys;
      ResponseGroupAppend(xs[1..], ys, g);
    }
  }

  /** Two ordered runs, the first below `c` and the second above it, make
      an ordered run. */
  lemma RequestOrderedAppend(xs: seq<RequestStep>, ys: seq<RequestStep>, c: nat)
    requires RequestOrdered(xs) && RequestOrdered(ys)
    requires forall i :: 0 <= i < |xs| ==> RequestRank(xs[i]) <= c
    requires forall j :: 0 <= j < |ys| ==> c <= RequestRank(ys[j])
    ensures RequestOrdered(xs + ys)
  {
    var x := xs + ys;
    forall i, j | 0 <= i < j < |x| ensures RequestRank(x[i]) <= RequestRank(x[j]) {
      if i >= |xs| {
        assert x[i] == ys[i - |xs|] && x[j] == ys[j - |xs|];
      } else if j >= |xs| {
        assert x[i] == xs[i] && x[j] == ys[j - |xs|];
      } else {
        assert x[i] == xs[i] && x[j] == xs[j];
      }
    }
  }

  /** Statements that read no field contribute nothing to any group. */
  lemma {:induction false} RequestGroupNoReads(ss: seq<RequestStep>, g: nat)
    requires forall i :: 0 <= i < |ss| ==> ReadField(ss[i]) == []
    ensures FieldsInRequestGroup(ss, g) == []
  {
    if ss != [] {
      RequestGroupNoReads(ss[1..], g);
    }
  }

  lemma {:induction false} ResponseGroupNoWrites(ss: seq<ResponseStep>, g: nat)
    requires forall i :: 0 <= i < |ss| ==> WrittenField(ss[i]) == []
    ensures FieldsInResponseGroup(ss, g) == []
  {
    if ss != [] {
      ResponseGroupNoWrites(ss[1..], g);
    }
  }
}
