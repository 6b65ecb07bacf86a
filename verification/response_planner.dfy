/** `createOnResponseMethod` and the helpers it calls: the lowering of an
    action's response-side annotations into the statements of `onResponse`. */
module ResponsePlanner {
  import opened Wrappers
  import opened JavaTypes
  import opened ActionModel
  import opened Plan

  /** `getFieldAddress`: write through `action.f` when the action class
      declares the field, through a cast to the declaring class otherwise. */
  function FieldAddress(a: ActionClass, e: AnnotatedField): Address {
    if e.enclosing == a.typeName then Direct(e.name) else ViaCast(e.enclosing, e.name)
  }

  /** The right-hand side `addStatusField` picks for a `@Status` field, or
      None when its type matches none of the four tests. */
  function StatusProjectionFor(t: JType): Option<StatusProjection> {
    match t
    case Primitive(BooleanKind) => Some(IsSuccessful)
    case BoxedBoolean => Some(IsSuccessful)
    case Primitive(IntKind) => Some(CastStatus(t))
    case Primitive(LongKind) => Some(CastStatus(t))
    case BoxedInteger => Some(CastStatus(t))
    case StringType => Some(StatusToString)
    case BoxedLong => Some(StatusAsLong)
    case _ => None
  }

  /** The right-hand side `addResponseStatements` picks for a `@Response` field. */
  function BodyConversionFor(t: JType): BodyConversion {
    match t
    case ActionBodyType => RawBody
    case StringType => BodyToString
    case _ => ConvertFromBody(t)
  }

  /** The annotation kinds `onResponse` consumes. */
  predicate IsResponseKind(k: MarkerKind) {
    k.StatusKind? || k.ResponseKind? || k.ResponseHeaderKind?
  }

  /** The group of `onResponse` that a response-side annotation kind lands in. */
  function ResponseGroupOf(k: MarkerKind): nat {
    match k
    case StatusKind => 0
    case ResponseKind => 1
    case ResponseHeaderKind => 3
    case _ => 4
  }

  /** The field types `addStatusField` recognises: boolean and Boolean,
      int, long and Integer, String, and Long. */
  const StatusTypes: set<JType> :=
    {Primitive(BooleanKind), BoxedBoolean, Primitive(IntKind), Primitive(LongKind), BoxedInteger, StringType, BoxedLong}

  /** Whether an annotation yields a statement in `onResponse`: a `@Status`
      field of any other type yields none. */
  predicate Emits(e: AnnotatedField) {
    IsResponseKind(KindOf(e.marker)) && !(e.marker.Status? && e.fieldType !in StatusTypes)
  }

  /** The statements `HttpHelpersGenerator`'s `addStatusField`, `addResponses`
      with `addResponseStatements`, and `addResponseHeaders` emit for one
      annotation. */
  function ResponseStepsFor(a: ActionClass, e: AnnotatedField): (r: seq<ResponseStep>)
    ensures |r| <= 1
    ensures r != [] <==> Emits(e)
    ensures forall s :: s in r ==>
      && WrittenField(s) == [e.name]
      && s.target == FieldAddress(a, e)
      && ResponseRank(s) == ResponseGroupOf(KindOf(e.marker))
    ensures e.marker.Response? ==> |r| == 1 && (r[0].IfStatusEquals? <==> e.marker.status > 0)
  {
    var address := FieldAddress(a, e);
    match e.marker
    case Status =>
      (match StatusProjectionFor(e.fieldType)
       case Some(p) => [AssignStatus(address, p)]
       case None => [])
    case Response(status) =>
      if status > 0 then [IfStatusEquals(status, address, BodyConversionFor(e.fieldType))]
      else [AssignBody(address, BodyConversionFor(e.fieldType))]
    case ResponseHeader(value) =>
      [AssignHeader(address, value)]
    case _ => []
  }

  /** The statements for a list of annotations, in list order. */
  function LowerResponse(a: ActionClass, es: seq<AnnotatedField>): (r: seq<ResponseStep>)
    ensures |r| <= |es|
    ensures forall i :: 0 <= i < |r| ==> r[i] != BuildHeaderMap && r[i] != ReturnAction
  {
    if es == [] then [] else ResponseStepsFor(a, es[0]) + LowerResponse(a, es[1..])
  }

  /** `addBasicHeadersMap`: the map is declared only when some field is
      annotated `@ResponseHeader`. */
  function HeaderMapPreamble(a: ActionClass): seq<ResponseStep> {
    if AnnotatedElements(a.fields, ResponseHeaderKind) == [] then [] else [BuildHeaderMap]
  }

  /** `addStatusField` then `addResponses`. */
  function StatusAndBodies(a: ActionClass): seq<ResponseStep> {
    LowerResponse(a, AnnotatedElements(a.fields, StatusKind))
    + LowerResponse(a, AnnotatedElements(a.fields, ResponseKind))
  }

  /** `addBasicHeadersMap` then `addResponseHeaders`. */
  function HeaderExtraction(a: ActionClass): seq<ResponseStep> {
    HeaderMapPreamble(a) + LowerResponse(a, AnnotatedElements(a.fields, ResponseHeaderKind))
  }

  /** The statements before `return action`. */
  function ResponseAssignments(a: ActionClass): seq<ResponseStep> {
    StatusAndBodies(a) + HeaderExtraction(a)
  }

  /** The body of `onResponse`, as `HttpHelpersGenerator.createOnResponseMethod`
      assembles it. */
  function OnResponse(a: ActionClass): (r: seq<ResponseStep>)
    ensures |r| >= 1 && r[|r| - 1] == ReturnAction
  {
    ResponseAssignments(a) + [ReturnAction]
  }

  lemma StatusAndBodiesNoReturn(a: ActionClass)
    ensures NoReturn(StatusAndBodies(a))
  {
    NoReturnAppend(LowerResponse(a, AnnotatedElements(a.fields, StatusKind)),
                   LowerResponse(a, AnnotatedElements(a.fields, ResponseKind)));
  }

  lemma HeaderExtractionNoReturn(a: ActionClass)
    ensures NoReturn(HeaderExtraction(a))
  {
    assert NoReturn(HeaderMapPreamble(a));
    NoReturnAppend(HeaderMapPreamble(a), LowerResponse(a, AnnotatedElements(a.fields, ResponseHeaderKind)));
  }

  /** `return action` is the last statement of onResponse and appears
      nowhere before it. */
  lemma OnResponseReturnsLast(a: ActionClass)
    ensures NoReturn(OnResponse(a)[..|OnResponse(a)| - 1])
  {
    StatusAndBodiesNoReturn(a);
    HeaderExtractionNoReturn(a);
    NoReturnAppend(StatusAndBodies(a), HeaderExtraction(a));
    assert OnResponse(a)[..|OnResponse(a)| - 1] == ResponseAssignments(a);
  }

  /** The annotations of `es` that yield a statement, in order. */
  function Emitting(es: seq<AnnotatedField>): (r: seq<AnnotatedField>)
    ensures forall e :: e in r <==> e in es && Emits(e)
  {
    if es == [] then [] else (if Emits(es[0]) then [es[0]] else []) + Emitting(es[1..])
  }

  lemma {:induction false} LowerResponseAppend(a: ActionClass, xs: seq<AnnotatedField>, ys: seq<AnnotatedField>)
    ensures LowerResponse(a, xs + ys) == LowerResponse(a, xs) + LowerResponse(a, ys)
  {
    if xs == [] {
      assert xs + ys == ys;
    } else {
      assert (xs + ys)[1..] == xs[1..] + ys;
      LowerResponseAppend(a, xs[1..], ys);
    }
  }

  lemma {:induction false} LowerResponseRank(a: ActionClass, es: seq<AnnotatedField>, k: MarkerKind)
    requires forall e :: e in es ==> KindOf(e.marker) == k
    ensures forall i :: 0 <= i < |LowerResponse(a, es)| ==> ResponseRank(LowerResponse(a, es)[i]) == ResponseGroupOf(k)
  {
    if es != [] {
      LowerResponseRank(a, es[1..], k);
      assert LowerResponse(a, es) == ResponseStepsFor(a, es[0]) + LowerResponse(a, es[1..]);
    }
  }

  /** The fields written by group `g` of the statements for `es`: those of
      the annotations that emit anything, in order. */
  lemma {:induction false} LowerResponseFields(a: ActionClass, es: seq<AnnotatedField>, k: MarkerKind, g: nat)
    requires forall e :: e in es ==> KindOf(e.marker) == k
    ensures FieldsInResponseGroup(LowerResponse(a, es), g) == if g == ResponseGroupOf(k) then Names(Emitting(es)) else []
  {
    if es != [] {
      LowerResponseFields(a, es[1..], k, g);
      var r := ResponseStepsFor(a, es[0]);
      ResponseGroupAppend(r, LowerResponse(a, es[1..]), g);
      if r != [] {
        assert r[1..] == [];
      }
      assert FieldsInResponseGroup(r, g) == if g == ResponseGroupOf(k) && Emits(es[0]) then [es[0].name] else [];
    }
  }

  lemma StatusAndBodiesOrdered(a: ActionClass)
    ensures ResponseOrdered(StatusAndBodies(a)) && ResponseRanksIn(StatusAndBodies(a), 0, 1)
  {
    var s0 := LowerResponse(a, AnnotatedElements(a.fields, StatusKind));
    var s1 := LowerResponse(a, AnnotatedElements(a.fields, ResponseKind));
    LowerResponseRank(a, AnnotatedElements(a.fields, StatusKind), StatusKind);
    LowerResponseRank(a, AnnotatedElements(a.fields, ResponseKind), ResponseKind);
    ResponseRunsJoin(s0, s1, 0, 0, 1, 1);
  }

  lemma HeaderExtractionOrdered(a: ActionClass)
    ensures ResponseOrdered(HeaderExtraction(a)) && ResponseRanksIn(HeaderExtraction(a), 2, 3)
  {
    var s2 := HeaderMapPreamble(a);
    var s3 := LowerResponse(a, AnnotatedElements(a.fields, ResponseHeaderKind));
    LowerResponseRank(a, AnnotatedElements(a.fields, ResponseHeaderKind), ResponseHeaderKind);
    assert ResponseRanksIn(s2, 2, 2);
    ResponseRunsJoin(s2, s3, 2, 2, 3, 3);
  }

  /** onResponse's statements never go back to an earlier group: status,
      bodies, header map, headers, return. */
  lemma OnResponseOrdered(a: ActionClass)
    ensures ResponseOrdered(OnResponse(a))
  {
    StatusAndBodiesOrdered(a);
    HeaderExtractionOrdered(a);
    ClosedOrdered(StatusAndBodies(a), HeaderExtraction(a));
  }

  lemma ClosedOrdered(xs: seq<ResponseStep>, ys: seq<ResponseStep>)
    requires ResponseOrdered(xs) && ResponseRanksIn(xs, 0, 1)
    requires ResponseOrdered(ys) && ResponseRanksIn(ys, 2, 3)
    ensures ResponseOrdered(xs + ys + [ReturnAction])
  {
    ResponseRunsJoin(xs, ys, 0, 1, 2, 3);
    ResponseRunsJoin(xs + ys, [ReturnAction], 0, 3, 4, 4);
  }

  lemma StatusAndBodiesFields(a: ActionClass, g: nat)
    ensures FieldsInResponseGroup(StatusAndBodies(a), g) ==
      if g == 0 then Names(Emitting(AnnotatedElements(a.fields, StatusKind)))
      else if g == 1 then Names(Emitting(AnnotatedElements(a.fields, ResponseKind)))
      else []
  {
    var s0 := LowerResponse(a, AnnotatedElements(a.fields, StatusKind));
    var s1 := LowerResponse(a, AnnotatedElements(a.fields, ResponseKind));
    LowerResponseFields(a, AnnotatedElements(a.fields, StatusKind), StatusKind, g);
    LowerResponseFields(a, AnnotatedElements(a.fields, ResponseKind), ResponseKind, g);
    ResponseGroupAppend(s0, s1, g);
  }

  lemma HeaderExtractionFields(a: ActionClass, g: nat)
    ensures FieldsInResponseGroup(HeaderExtraction(a), g) ==
      if g == 3 then Names(Emitting(AnnotatedElements(a.fields, ResponseHeaderKind))) else []
  {
    LowerResponseFields(a, AnnotatedElements(a.fields, ResponseHeaderKind), ResponseHeaderKind, g);
    GroupAfterMap(HeaderMapPreamble(a), LowerResponse(a, AnnotatedElements(a.fields, ResponseHeaderKind)), g);
  }

  /** The header map declaration writes no field. */
  lemma GroupAfterMap(pre: seq<ResponseStep>, l: seq<ResponseStep>, g: nat)
    requires pre == [] || pre == [BuildHeaderMap]
    ensures FieldsInResponseGroup(pre + l, g) == FieldsInResponseGroup(l, g)
  {
    if pre == [] {
      assert pre + l == l;
    } else {
      assert (pre + l)[1..] == l;
    }
  }

  /** The fields written by each group of onResponse, in discovery order:
      `@Status` fields of a supported type, every `@Response` field (the
      catch-all ones where they were declared, not moved last) and every
      `@ResponseHeader` field. */
  lemma OnResponseGroups(a: ActionClass, k: MarkerKind)
    requires IsResponseKind(k)
    ensures FieldsInResponseGroup(OnResponse(a), ResponseGroupOf(k)) == Names(Emitting(AnnotatedElements(a.fields, k)))
  {
    var g := ResponseGroupOf(k);
    var x := FieldsInResponseGroup(StatusAndBodies(a), g);
    var y := FieldsInResponseGroup(HeaderExtraction(a), g);
    StatusAndBodiesFields(a, g);
    HeaderExtractionFields(a, g);
    GroupsClosed(StatusAndBodies(a), HeaderExtraction(a), g);
    if k.ResponseHeaderKind? {
      assert x == [] && x + y == y;
    } else {
      assert y == [] && x + y == x;
    }
  }

  lemma GroupsClosed(xs: seq<ResponseStep>, ys: seq<ResponseStep>, g: nat)
    ensures FieldsInResponseGroup(xs + ys + [ReturnAction], g) ==
      FieldsInResponseGroup(xs, g) + FieldsInResponseGroup(ys, g)
  {
    ResponseGroupNoWrites([ReturnAction], g);
    ResponseGroupAppend(xs, ys, g);
    ResponseGroupAppend(xs + ys, [ReturnAction], g);
  }

  /** Every `@Response` and `@ResponseHeader` annotation emits a statement. */
  lemma {:induction false} EmittingAll(es: seq<AnnotatedField>)
    requires forall i :: 0 <= i < |es| ==> es[i].marker.Response? || es[i].marker.ResponseHeader?
    ensures Emitting(es) == es
  {
    if es != [] {
      assert Emits(es[0]);
      EmittingAll(es[1..]);
      assert Emitting(es) == [es[0]] + Emitting(es[1..]);
    }
  }

  /** `headers` is declared exactly once when some field is annotated
      `@ResponseHeader`, and never otherwise. */
  lemma HeaderMapBuiltOnce(a: ActionClass)
    ensures HeaderMapCount(OnResponse(a)) ==
      if AnnotatedElements(a.fields, ResponseHeaderKind) == [] then 0 else 1
  {
    var s0 := LowerResponse(a, AnnotatedElements(a.fields, StatusKind));
    var s1 := LowerResponse(a, AnnotatedElements(a.fields, ResponseKind));
    var s3 := LowerResponse(a, AnnotatedElements(a.fields, ResponseHeaderKind));
    HeaderMapCountNone(s0);
    HeaderMapCountNone(s1);
    HeaderMapCountAppend(s0, s1);
    HeaderMapCountNone(s3);
    HeaderMapCountAppend(HeaderMapPreamble(a), s3);
    assert HeaderMapCount(HeaderExtraction(a)) == |HeaderMapPreamble(a)|;
    HeaderMapCountAppend(StatusAndBodies(a), HeaderExtraction(a));
    HeaderMapCountNone([ReturnAction]);
    HeaderMapCountAppend(ResponseAssignments(a), [ReturnAction]);
  }

  /** The header map is declared before any header is extracted from it. */
  lemma HeaderMapBeforeHeaders(a: ActionClass)
    ensures forall i, j ::
      (0 <= i < |OnResponse(a)| && 0 <= j < |OnResponse(a)| &&
       OnResponse(a)[i].AssignHeader? && OnResponse(a)[j].BuildHeaderMap?) ==> j < i
  {
    OnResponseOrdered(a);
    MapBeforeHeaders(OnResponse(a));
  }

  lemma MapBeforeHeaders(ss: seq<ResponseStep>)
    requires ResponseOrdered(ss)
    ensures forall i, j ::
      (0 <= i < |ss| && 0 <= j < |ss| && ss[i].AssignHeader? && ss[j].BuildHeaderMap?) ==> j < i
  {
  }

  lemma {:induction false} LowerResponseAddressed(a: ActionClass, es: seq<AnnotatedField>)
    ensures forall s :: s in LowerResponse(a, es) ==>
      HasTarget(s) && exists e :: e in es && s.target == FieldAddress(a, e)
  {
    if es != [] {
      LowerResponseAddressed(a, es[1..]);
      assert LowerResponse(a, es) == ResponseStepsFor(a, es[0]) + LowerResponse(a, es[1..]);
    }
  }

  /** Every write of onResponse goes to the address `getFieldAddress` gives
      one of the action's annotated fields: `action.f` when the action class
      declares it, `((Owner) action).f` for its declaring class otherwise. */
  lemma OnResponseAddressed(a: ActionClass)
    ensures forall s :: s in OnResponse(a) && HasTarget(s) ==>
      exists e ::
        && e in a.fields
        && s.target.field == e.name
        && (e.enclosing == a.typeName ==> s.target == Direct(e.name))
        && (e.enclosing != a.typeName ==> s.target == ViaCast(e.enclosing, e.name))
  {
    TargetsFromFields(a);
    forall s | s in OnResponse(a) && HasTarget(s)
      ensures exists e ::
        && e in a.fields
        && s.target.field == e.name
        && (e.enclosing == a.typeName ==> s.target == Direct(e.name))
        && (e.enclosing != a.typeName ==> s.target == ViaCast(e.enclosing, e.name))
    {
      var e :| e in a.fields && s.target == FieldAddress(a, e);
    }
  }

  lemma TargetsFromFields(a: ActionClass)
    ensures forall s :: s in OnResponse(a) && HasTarget(s) ==>
      exists e :: e in a.fields && s.target == FieldAddress(a, e)
  {
    LowerResponseAddressed(a, AnnotatedElements(a.fields, StatusKind));
    LowerResponseAddressed(a, AnnotatedElements(a.fields, ResponseKind));
    LowerResponseAddressed(a, AnnotatedElements(a.fields, ResponseHeaderKind));
  }

  lemma {:induction false} LowerResponseIncludes(a: ActionClass, es: seq<AnnotatedField>, e: AnnotatedField)
    requires e in es
    ensures forall s :: s in ResponseStepsFor(a, e) ==> s in LowerResponse(a, es)
  {
    if es[0] != e {
      LowerResponseIncludes(a, es[1..], e);
    }
  }

  /** Conversely, every field whose annotation yields a statement is
      written, at the address `getFieldAddress` gives it. */
  lemma EmittingFieldWritten(a: ActionClass, e: AnnotatedField)
    requires e in a.fields && Emits(e)
    ensures exists s ::
      && s in OnResponse(a)
      && HasTarget(s)
      && WrittenField(s) == [e.name]
      && (e.enclosing == a.typeName ==> s.target == Direct(e.name))
      && (e.enclosing != a.typeName ==> s.target == ViaCast(e.enclosing, e.name))
  {
    var k := KindOf(e.marker);
    var es := AnnotatedElements(a.fields, k);
    var s := ResponseStepsFor(a, e)[0];
    assert s in ResponseStepsFor(a, e);
    LowerResponseIncludes(a, es, e);
    assert s in LowerResponse(a, es);
    if k == StatusKind || k == ResponseKind {
      assert s in StatusAndBodies(a);
    } else {
      assert s in HeaderExtraction(a);
    }
    assert s in OnResponse(a);
  }
}
