/** `createFillRequestMethod` and the `add*` helpers it calls: the lowering
    of an action's request-side annotations into the statements of
    `fillRequest`. */
module RequestPlanner {
  import opened JavaTypes
  import opened ActionModel
  import opened Plan

  /** `StringUtils.isEmpty(value) ? simpleName : value`, the naming rule of
      `@Path` and `@Part`. */
  function DefaultedName(value: string, simpleName: string): string {
    if value == "" then simpleName else value
  }

  /** The `ActionBody` a `@Part` field is wrapped in, chosen by its type. */
  function PartBodyFor(t: JType): PartBody {
    match t
    case FileType => FileBodyOf
    case ByteArrayType => BytesBodyOf
    case StringType => StringBytesBodyOf
    case _ => FieldAsBody
  }

  /** The annotations whose statement sits inside `if (action.f != null)`. */
  predicate NullGuarded(e: AnnotatedField) {
    match e.marker
    case Path(_, _) => true
    case Part(_, _) => true
    case RequestHeader(_) => true
    case Field(_) => true
    case Query(_, _, _) => !IsPrimitive(e.fieldType)
    case _ => false
  }

  /** The annotation kinds `fillRequest` consumes. */
  predicate IsRequestKind(k: MarkerKind) {
    k.PathKind? || k.PartKind? || k.RequestHeaderKind? || k.FieldKind? || k.QueryKind? || k.BodyKind?
  }

  /** The group of `fillRequest` that a request-side annotation kind lands in. */
  function RequestGroupOf(k: MarkerKind): nat {
    match k
    case PathKind => 3
    case PartKind => 4
    case RequestHeaderKind => 5
    case FieldKind => 6
    case QueryKind => 7
    case BodyKind => 8
    case _ => 0
  }

  /** The statements `HttpHelpersGenerator`'s `addPathParams`, `addParts`,
      `addRequestHeaders`, `addRequestFields`, `addRequestQueries` and
      `addRequestBody` emit for one annotation. */
  function RequestStepsFor(e: AnnotatedField): (r: seq<RequestStep>)
    ensures |r| <= 1
    ensures r == [] <==> !IsRequestKind(KindOf(e.marker))
    ensures NullGuarded(e) <==> |r| == 1 && r[0].IfNotNull? && r[0].field == e.name
    ensures e.marker.Query? && IsPrimitive(e.fieldType) <==> |r| == 1 && r[0].AddPrimitiveQuery? && r[0].field == e.name
    ensures e.marker.Body? <==> r == [SetBody(e.name)]
    ensures forall s :: s in r ==> RequestRank(s) == RequestGroupOf(KindOf(e.marker)) && ReadField(s) == [e.name]
  {
    match e.marker
    case Path(value, encode) =>
      [IfNotNull(e.name, UsePathParam(DefaultedName(value, e.name), encode))]
    case Part(value, encoding) =>
      [IfNotNull(e.name, UsePart(DefaultedName(value, e.name), PartBodyFor(e.fieldType), encoding))]
    case RequestHeader(value) =>
      [IfNotNull(e.name, UseHeader(value))]
    case Field(value) =>
      [IfNotNull(e.name, UseField(value))]
    case Query(value, encodeName, encodeValue) =>
      if IsPrimitive(e.fieldType) then [AddPrimitiveQuery(value, e.name, encodeName, encodeValue)]
      else [IfNotNull(e.name, UseQuery(value, encodeName, encodeValue))]
    case Body =>
      [SetBody(e.name)]
    case _ => []
  }

  /** The statements for a list of annotations, in list order. */
  function Lower(es: seq<AnnotatedField>): (r: seq<RequestStep>)
    ensures |r| <= |es|
    ensures forall i :: 0 <= i < |r| ==> 3 <= RequestRank(r[i]) <= 8
  {
    if es == [] then [] else RequestStepsFor(es[0]) + Lower(es[1..])
  }

  /** `addRequestBody` leaves its loop with `break` after the first field. */
  function FirstOnly(es: seq<AnnotatedField>): seq<AnnotatedField> {
    if es == [] then [] else [es[0]]
  }

  /** The order in which `createFillRequestMethod` calls `addPathParams`,
      `addParts`, `addRequestHeaders`, `addRequestFields`,
      `addRequestQueries` and `addRequestBody`. */
  const RequestGroups: seq<MarkerKind> :=
    [PathKind, PartKind, RequestHeaderKind, FieldKind, QueryKind, BodyKind]

  /** The annotations one `add*` helper consumes: all fields of its kind, or
      only the first `@Body` field. */
  function Consumed(a: ActionClass, k: MarkerKind): seq<AnnotatedField> {
    if k == BodyKind then FirstOnly(AnnotatedElements(a.fields, k))
    else AnnotatedElements(a.fields, k)
  }

  /** The statements the `add*` helpers for `ks` emit, one helper after the other. */
  function LowerGroups(a: ActionClass, ks: seq<MarkerKind>): (r: seq<RequestStep>)
    ensures forall i :: 0 <= i < |r| ==> 3 <= RequestRank(r[i]) <= 8
  {
    if ks == [] then [] else Lower(Consumed(a, ks[0])) + LowerGroups(a, ks[1..])
  }

  /** The three statements every `fillRequest` starts with. */
  function Preamble(a: ActionClass): seq<RequestStep> {
    [SetMethod(a.httpMethod), SetRequestType(a.requestType), SetPath(a.path)]
  }

  /** The body of `fillRequest`, as `HttpHelpersGenerator.createFillRequestMethod`
      assembles it. */
  function FillRequest(a: ActionClass): (r: seq<RequestStep>)
    ensures |r| >= 4
    ensures r[0] == SetMethod(a.httpMethod) && r[1] == SetRequestType(a.requestType) && r[2] == SetPath(a.path)
    ensures r[|r| - 1] == ReturnBuilder
    ensures forall i :: 0 <= i < |r| - 1 ==> r[i] != ReturnBuilder
  {
    Preamble(a) + LowerGroups(a, RequestGroups) + [ReturnBuilder]
  }

  lemma {:induction false} LowerAppend(xs: seq<AnnotatedField>, ys: seq<AnnotatedField>)
    ensures Lower(xs + ys) == Lower(xs) + Lower(ys)
  {
    if xs == [] {
      assert xs + ys == ys;
    } else {
      assert (xs + ys)[1..] == xs[1..] + ys;
      LowerAppend(xs[1..], ys);
    }
  }

  /** All statements for annotations of kind `k` fall into `k`'s group. */
  lemma {:induction false} LowerRank(es: seq<AnnotatedField>, k: MarkerKind)
    requires forall e :: e in es ==> KindOf(e.marker) == k
    ensures forall i :: 0 <= i < |Lower(es)| ==> RequestRank(Lower(es)[i]) == RequestGroupOf(k)
  {
    if es != [] {
      LowerRank(es[1..], k);
      assert Lower(es) == RequestStepsFor(es[0]) + Lower(es[1..]);
    }
  }

  lemma ConsumedKind(a: ActionClass, k: MarkerKind)
    ensures forall e :: e in Consumed(a, k) ==> KindOf(e.marker) == k
  {
  }

  /** Groups whose ranks rise along `ks` produce ordered statements, all of
      rank at least `lo`. */
  lemma {:induction false} LowerGroupsOrdered(a: ActionClass, ks: seq<MarkerKind>, lo: nat)
    requires forall i, j :: 0 <= i < j < |ks| ==> RequestGroupOf(ks[i]) < RequestGroupOf(ks[j])
    requires forall i :: 0 <= i < |ks| ==> lo <= RequestGroupOf(ks[i])
    ensures RequestOrdered(LowerGroups(a, ks))
    ensures forall i :: 0 <= i < |LowerGroups(a, ks)| ==> lo <= RequestRank(LowerGroups(a, ks)[i])
  {
    if ks != [] {
      var k := ks[0];
      var x := Lower(Consumed(a, k));
      var y := LowerGroups(a, ks[1..]);
      LowerGroupsOrdered(a, ks[1..], RequestGroupOf(k));
      ConsumedKind(a, k);
      LowerRank(Consumed(a, k), k);
      assert LowerGroups(a, ks) == x + y;
      assert RequestOrdered(x);
      RequestOrderedAppend(x, y, RequestGroupOf(k));
    }
  }

  /** A group of statements for kind `k` reads exactly the fields of `es`,
      in order, when every field of `es` has the request-side kind `k`. */
  lemma {:induction false} LowerFields(es: seq<AnnotatedField>, k: MarkerKind, g: nat)
    requires IsRequestKind(k)
    requires forall e :: e in es ==> KindOf(e.marker) == k
    ensures FieldsInRequestGroup(Lower(es), g) == if g == RequestGroupOf(k) then Names(es) else []
  {
    if es != [] {
      LowerFields(es[1..], k, g);
      var e := es[0];
      RequestGroupAppend(RequestStepsFor(e), Lower(es[1..]), g);
      var r := RequestStepsFor(e);
      assert |r| == 1;
      assert r[1..] == [];
      assert FieldsInRequestGroup(r, g) == if g == RequestGroupOf(k) then [e.name] else [];
    }
  }

  /** The fields read by the group of `k`, when `k` occurs once among the
      request-side kinds `ks` and no other kind of `ks` shares its group. */
  lemma {:induction false} LowerGroupsFields(a: ActionClass, ks: seq<MarkerKind>, k: MarkerKind)
    requires forall i :: 0 <= i < |ks| ==> IsRequestKind(ks[i])
    requires forall i :: 0 <= i < |ks| && ks[i] != k ==> RequestGroupOf(ks[i]) != RequestGroupOf(k)
    requires forall i, j :: 0 <= i < j < |ks| ==> ks[i] != ks[j]
    ensures k in ks ==> FieldsInRequestGroup(LowerGroups(a, ks), RequestGroupOf(k)) == Names(Consumed(a, k))
    ensures k !in ks ==> FieldsInRequestGroup(LowerGroups(a, ks), RequestGroupOf(k)) == []
  {
    if ks != [] {
      var g := RequestGroupOf(k);
      LowerGroupsFields(a, ks[1..], k);
      ConsumedKind(a, ks[0]);
      LowerFields(Consumed(a, ks[0]), ks[0], g);
      RequestGroupAppend(Lower(Consumed(a, ks[0])), LowerGroups(a, ks[1..]), g);
      if ks[0] == k {
        assert k !in ks[1..];
      }
    }
  }

  /** Every request-side kind occurs once in `RequestGroups`, with a group of
      its own. */
  lemma RequestGroupsDistinct(k: MarkerKind)
    requires IsRequestKind(k)
    ensures k in RequestGroups
    ensures forall i :: 0 <= i < |RequestGroups| ==> IsRequestKind(RequestGroups[i])
    ensures forall i :: 0 <= i < |RequestGroups| && RequestGroups[i] != k ==>
      RequestGroupOf(RequestGroups[i]) != RequestGroupOf(k)
    ensures forall i, j :: 0 <= i < j < |RequestGroups| ==> RequestGroups[i] != RequestGroups[j]
  {
  }

  /** fillRequest's statements never go back to an earlier group: method,
      request type, path, path params, parts, headers, form fields, queries,
      body, return. */
  lemma FillRequestOrdered(a: ActionClass)
    ensures RequestOrdered(FillRequest(a))
  {
    PreambleOrdered(a);
    GroupsOrdered(a);
    ClosedOrdered(Preamble(a), LowerGroups(a, RequestGroups));
  }

  lemma PreambleOrdered(a: ActionClass)
    ensures RequestOrdered(Preamble(a)) && RequestRanksIn(Preamble(a), 0, 2)
  {
  }

  lemma GroupsOrdered(a: ActionClass)
    ensures RequestOrdered(LowerGroups(a, RequestGroups)) && RequestRanksIn(LowerGroups(a, RequestGroups), 3, 8)
  {
    LowerGroupsOrdered(a, RequestGroups, 3);
  }

  lemma ClosedOrdered(pre: seq<RequestStep>, mid: seq<RequestStep>)
    requires RequestOrdered(pre) && RequestRanksIn(pre, 0, 2)
    requires RequestOrdered(mid) && RequestRanksIn(mid, 3, 8)
    ensures RequestOrdered(pre + mid + [ReturnBuilder])
  {
    RequestRunsJoin(pre, mid, 0, 2, 3, 8);
    RequestRunsJoin(pre + mid, [ReturnBuilder], 0, 8, 9, 9);
  }

  /** The fields read by each group of fillRequest: per request-side kind,
      the annotated fields of that kind in discovery order, except that only
      the first `@Body` field is used. */
  lemma FillRequestGroups(a: ActionClass, k: MarkerKind)
    requires IsRequestKind(k)
    ensures FieldsInRequestGroup(FillRequest(a), RequestGroupOf(k)) == Names(Consumed(a, k))
  {
    var g := RequestGroupOf(k);
    RequestGroupsDistinct(k);
    LowerGroupsFields(a, RequestGroups, k);
    PreambleNoReads(a, g);
    ClosedGroup(Preamble(a), LowerGroups(a, RequestGroups), g);
  }

  lemma PreambleNoReads(a: ActionClass, g: nat)
    ensures FieldsInRequestGroup(Preamble(a), g) == []
  {
    RequestGroupNoReads(Preamble(a), g);
  }

  /** A group's fields in `pre + mid + [return]` when `pre` reads none. */
  lemma ClosedGroup(pre: seq<RequestStep>, mid: seq<RequestStep>, g: nat)
    requires FieldsInRequestGroup(pre, g) == []
    ensures FieldsInRequestGroup(pre + mid + [ReturnBuilder], g) == FieldsInRequestGroup(mid, g)
  {
    RequestGroupNoReads([ReturnBuilder], g);
    RequestGroupAppend(pre, mid, g);
    RequestGroupAppend(pre + mid, [ReturnBuilder], g);
  }

  /** At most one `setBody` statement, naming the first `@Body` field; none
      without a `@Body` field. */
  lemma FillRequestBody(a: ActionClass)
    ensures AnnotatedElements(a.fields, BodyKind) == [] ==>
      FieldsInRequestGroup(FillRequest(a), 8) == []
    ensures AnnotatedElements(a.fields, BodyKind) != [] ==>
      FieldsInRequestGroup(FillRequest(a), 8) == [AnnotatedElements(a.fields, BodyKind)[0].name]
  {
    FillRequestGroups(a, BodyKind);
  }
}
