/** What the generated `fillRequest` does to the request builder, proved of
    the planner's statements run by the interpreter. */
module RequestBehaviour {
  import opened JavaTypes
  import opened ActionModel
  import opened Runtime
  import opened Plan
  import opened RequestPlanner
  import opened Interpreter

  /** The group a builder call belongs to. */
  function CallRank(c: BuilderCall): nat {
    match c
    case CallSetMethod(_) => 0
    case CallSetRequestType(_) => 1
    case CallSetPath(_) => 2
    case CallAddPathParam(_, _, _) => 3
    case CallAddPart(_, _, _) => 4
    case CallAddHeader(_, _) => 5
    case CallAddField(_, _) => 6
    case CallAddQueryParam(_, _, _, _) => 7
    case CallSetBody(_) => 8
  }

  predicate CallsOrdered(cs: seq<BuilderCall>) {
    forall i, j :: 0 <= i < j < |cs| ==> CallRank(cs[i]) <= CallRank(cs[j])
  }

  /** The builder call that `HttpHelpersGenerator`'s request helpers
      (`addPathParams` through `addRequestBody`) emit for one annotation,
      when the field's value is `v`: the reference the planner is checked
      against. */
  function ExpectedCall(e: AnnotatedField, v: Term): seq<BuilderCall> {
    match e.marker
    case Path(value, encode) =>
      [CallAddPathParam(if value == "" then e.name else value, ToString(v), encode)]
    case Part(value, encoding) =>
      var body :=
        if e.fieldType == FileType then FileBody(encoding, v)
        else if e.fieldType == ByteArrayType then BytesArrayBody(encoding, v)
        else if e.fieldType == StringType then BytesArrayBody(encoding, GetBytes(v))
        else v;
      [CallAddPart(if value == "" then e.name else value, body, encoding)]
    case RequestHeader(value) => [CallAddHeader(value, ToString(v))]
    case Field(value) => [CallAddField(value, ToString(v))]
    case Query(value, encodeName, encodeValue) =>
      if IsPrimitive(e.fieldType) then [CallAddQueryParam(value, StringValueOf(v), encodeName, encodeValue)]
      else [CallAddQueryParam(value, ToString(v), encodeName, encodeValue)]
    case Body => [CallSetBody(v)]
    case _ => []
  }

  /** The calls made for the annotations `es`, in order: each annotation's
      call, except that a null-guarded field holding null makes none. */
  function Sent(es: seq<AnnotatedField>, inst: Instance): seq<BuilderCall> {
    if es == [] then []
    else
      var e := es[0];
      (if NullGuarded(e) && Get(inst, e.name) == Null then [] else ExpectedCall(e, Get(inst, e.name)))
      + Sent(es[1..], inst)
  }

  /** The calls of the `add*` helpers for `ks`, one helper after the other. */
  function SentGroups(a: ActionClass, ks: seq<MarkerKind>, inst: Instance): seq<BuilderCall> {
    if ks == [] then [] else Sent(Consumed(a, ks[0]), inst) + SentGroups(a, ks[1..], inst)
  }

  lemma {:induction false} RunRequestAppend(xs: seq<RequestStep>, ys: seq<RequestStep>, inst: Instance)
    requires forall i :: 0 <= i < |xs| ==> xs[i] != ReturnBuilder
    ensures RunRequest(xs + ys, inst) == RunRequest(xs, inst) + RunRequest(ys, inst)
  {
    if xs == [] {
      assert xs + ys == ys;
    } else {
      assert (xs + ys)[1..] == xs[1..] + ys;
      RunRequestAppend(xs[1..], ys, inst);
    }
  }

  /** The statements for one annotation make exactly the reference call, or
      none for a null-guarded null field. */
  lemma StepsMeaning(e: AnnotatedField, inst: Instance)
    ensures RunRequest(RequestStepsFor(e), inst) ==
      if NullGuarded(e) && Get(inst, e.name) == Null then [] else ExpectedCall(e, Get(inst, e.name))
  {
    var r := RequestStepsFor(e);
    if r != [] {
      assert r[1..] == [];
    }
  }

  lemma {:induction false} LowerMeaning(es: seq<AnnotatedField>, inst: Instance)
    ensures RunRequest(Lower(es), inst) == Sent(es, inst)
  {
    if es != [] {
      LowerMeaning(es[1..], inst);
      StepsMeaning(es[0], inst);
      RunRequestAppend(RequestStepsFor(es[0]), Lower(es[1..]), inst);
    }
  }

  lemma LowerNoReturn(es: seq<AnnotatedField>)
    ensures forall i :: 0 <= i < |Lower(es)| ==> Lower(es)[i] != ReturnBuilder
  {
  }

  lemma JoinMeaning(x: seq<RequestStep>, y: seq<RequestStep>, inst: Instance, sx: seq<BuilderCall>, sy: seq<BuilderCall>)
    requires forall i :: 0 <= i < |x| ==> x[i] != ReturnBuilder
    requires RunRequest(x, inst) == sx && RunRequest(y, inst) == sy
    ensures RunRequest(x + y, inst) == sx + sy
  {
    RunRequestAppend(x, y, inst);
  }

  lemma {:induction false} LowerGroupsMeaning(a: ActionClass, ks: seq<MarkerKind>, inst: Instance)
    ensures RunRequest(LowerGroups(a, ks), inst) == SentGroups(a, ks, inst)
  {
    if ks != [] {
      var x := Lower(Consumed(a, ks[0]));
      var y := LowerGroups(a, ks[1..]);
      LowerGroupsMeaning(a, ks[1..], inst);
      LowerMeaning(Consumed(a, ks[0]), inst);
      LowerNoReturn(Consumed(a, ks[0]));
      JoinMeaning(x, y, inst, Sent(Consumed(a, ks[0]), inst), SentGroups(a, ks[1..], inst));
      assert LowerGroups(a, ks) == x + y;
    }
  }

  lemma PreambleCalls(a: ActionClass, inst: Instance)
    ensures RunRequest(Preamble(a), inst) ==
      [CallSetMethod(a.httpMethod), CallSetRequestType(a.requestType), CallSetPath(a.path)]
  {
    var p0 := Preamble(a);
    var p1 := [SetRequestType(a.requestType), SetPath(a.path)];
    var p2 := [SetPath(a.path)];
    assert p0[1..] == p1 && p1[1..] == p2 && p2[1..] == [];
    assert RunRequest(p2, inst) == [CallSetPath(a.path)] + RunRequest([], inst);
    assert RunRequest(p1, inst) == [CallSetRequestType(a.requestType)] + RunRequest(p2, inst);
    assert RunRequest(p0, inst) == [CallSetMethod(a.httpMethod)] + RunRequest(p1, inst);
  }

  /** fillRequest makes setMethod, setRequestType and setPath, then the
      reference calls of the path params, parts, request headers, form
      fields, queries and the first body, each group in discovery order,
      skipping every null-guarded field that holds null. */
  lemma FillRequestMeaning(a: ActionClass, inst: Instance)
    ensures RunRequest(FillRequest(a), inst) ==
      [CallSetMethod(a.httpMethod), CallSetRequestType(a.requestType), CallSetPath(a.path)]
      + SentGroups(a, RequestGroups, inst)
  {
    LowerGroupsMeaning(a, RequestGroups, inst);
    PreambleCalls(a, inst);
    GroupsNoReturn(a);
    Compose(FillRequest(a), Preamble(a), LowerGroups(a, RequestGroups), inst,
      [CallSetMethod(a.httpMethod), CallSetRequestType(a.requestType), CallSetPath(a.path)],
      SentGroups(a, RequestGroups, inst));
  }

  lemma Compose(fr: seq<RequestStep>, pre: seq<RequestStep>, mid: seq<RequestStep>, inst: Instance,
                p: seq<BuilderCall>, m: seq<BuilderCall>)
    requires fr == pre + mid + [ReturnBuilder]
    requires forall i :: 0 <= i < |pre| ==> pre[i] != ReturnBuilder
    requires forall i :: 0 <= i < |mid| ==> mid[i] != ReturnBuilder
    requires RunRequest(pre, inst) == p && RunRequest(mid, inst) == m
    ensures RunRequest(fr, inst) == p + m
  {
    RunClosed(pre, mid, inst);
  }

  lemma GroupsNoReturn(a: ActionClass)
    ensures forall i :: 0 <= i < |LowerGroups(a, RequestGroups)| ==> LowerGroups(a, RequestGroups)[i] != ReturnBuilder
  {
  }

  /** Running `pre + mid + [return]` makes the calls of `pre` then `mid`. */
  lemma RunClosed(pre: seq<RequestStep>, mid: seq<RequestStep>, inst: Instance)
    requires forall i :: 0 <= i < |pre| ==> pre[i] != ReturnBuilder
    requires forall i :: 0 <= i < |mid| ==> mid[i] != ReturnBuilder
    ensures RunRequest(pre + mid + [ReturnBuilder], inst) == RunRequest(pre, inst) + RunRequest(mid, inst)
  {
    assert RunRequest([ReturnBuilder], inst) == [];
    RunRequestAppend(pre, mid, inst);
    RunRequestAppend(pre + mid, [ReturnBuilder], inst);
  }

  lemma ExecRank(s: RequestStep, inst: Instance)
    ensures forall c :: c in ExecRequestStep(s, inst) ==> CallRank(c) == RequestRank(s)
  {
  }

  lemma {:induction false} RunRequestOrdered(ss: seq<RequestStep>, inst: Instance, lo: nat)
    requires RequestOrdered(ss)
    requires forall i :: 0 <= i < |ss| ==> lo <= RequestRank(ss[i])
    ensures CallsOrdered(RunRequest(ss, inst))
    ensures forall i :: 0 <= i < |RunRequest(ss, inst)| ==> lo <= CallRank(RunRequest(ss, inst)[i])
  {
    if ss != [] && ss[0] != ReturnBuilder {
      var s := ss[0];
      RunRequestOrdered(ss[1..], inst, RequestRank(s));
      ExecRank(s, inst);
      var x := ExecRequestStep(s, inst);
      var y := RunRequest(ss[1..], inst);
      assert |x| <= 1;
      forall i, j | 0 <= i < j < |x + y| ensures CallRank((x + y)[i]) <= CallRank((x + y)[j]) {
        if i >= |x| {
          assert (x + y)[i] == y[i - |x|] && (x + y)[j] == y[j - |x|];
        } else {
          assert (x + y)[i] == x[i] && (x + y)[j] == y[j - |x|];
        }
      }
      forall i | 0 <= i < |x + y| ensures lo <= CallRank((x + y)[i]) {
        if i >= |x| {
          assert (x + y)[i] == y[i - |x|];
        } else {
          assert (x + y)[i] == x[i];
        }
      }
    }
  }

  /** fillRequest first sets method, request type and path, and its calls
      never go back to an earlier group: path params, parts, request headers,
      form fields, queries, body. */
  lemma FillRequestCallOrder(a: ActionClass, inst: Instance)
    ensures |RunRequest(FillRequest(a), inst)| >= 3
    ensures RunRequest(FillRequest(a), inst)[..3] ==
      [CallSetMethod(a.httpMethod), CallSetRequestType(a.requestType), CallSetPath(a.path)]
    ensures CallsOrdered(RunRequest(FillRequest(a), inst))
  {
    FillRequestMeaning(a, inst);
    FillRequestOrdered(a);
    RunRequestOrdered(FillRequest(a), inst, 0);
  }

  /** A null-guarded field holding null contributes nothing to `Sent`. */
  lemma {:induction false} SentWithout(es: seq<AnnotatedField>, inst: Instance, f: string)
    requires Get(inst, f) == Null
    requires forall e :: e in es && e.name == f ==> NullGuarded(e) || !IsRequestKind(KindOf(e.marker))
    ensures Sent(Without(es, f), inst) == Sent(es, inst)
  {
    if es != [] {
      var e := es[0];
      SentWithout(es[1..], inst, f);
      if e.name == f {
        assert Without(es, f) == Without(es[1..], f);
        assert ExpectedCall(e, Null) == [] || NullGuarded(e);
      } else {
        var w := Without(es, f);
        assert w == [e] + Without(es[1..], f);
        assert w[0] == e && w[1..] == Without(es[1..], f);
      }
    }
  }

  /** Each `add*` helper makes the same calls without field `f`. */
  lemma ConsumedWithout(a: ActionClass, k: MarkerKind, inst: Instance, f: string)
    requires Get(inst, f) == Null
    requires forall e :: e in a.fields && e.name == f ==> NullGuarded(e) || !IsRequestKind(KindOf(e.marker))
    ensures Sent(Consumed(a.(fields := Without(a.fields, f)), k), inst) == Sent(Consumed(a, k), inst)
  {
    var es := AnnotatedElements(a.fields, k);
    var a' := a.(fields := Without(a.fields, f));
    ElementsWithout(a.fields, k, f);
    assert AnnotatedElements(a'.fields, k) == Without(es, f);
    if k == BodyKind {
      BodyAbsent(a, inst, f);
      WithoutAbsent(es, f);
      assert Consumed(a', k) == Consumed(a, k);
    } else {
      SentWithout(es, inst, f);
      assert Consumed(a', k) == Without(es, f) && Consumed(a, k) == es;
    }
  }

  /** Field `f` carries no `@Body`: a `@Body` is never null-guarded. */
  lemma BodyAbsent(a: ActionClass, inst: Instance, f: string)
    requires forall e :: e in a.fields && e.name == f ==> NullGuarded(e) || !IsRequestKind(KindOf(e.marker))
    ensures forall e :: e in AnnotatedElements(a.fields, BodyKind) ==> e.name != f
  {
  }

  lemma {:induction false} SentGroupsWithout(a: ActionClass, ks: seq<MarkerKind>, inst: Instance, f: string)
    requires Get(inst, f) == Null
    requires forall e :: e in a.fields && e.name == f ==> NullGuarded(e) || !IsRequestKind(KindOf(e.marker))
    ensures SentGroups(a.(fields := Without(a.fields, f)), ks, inst) == SentGroups(a, ks, inst)
  {
    if ks != [] {
      SentGroupsWithout(a, ks[1..], inst, f);
      ConsumedWithout(a, ks[0], inst, f);
    }
  }

  lemma SilentWhenNull(a: ActionClass, f: string)
    requires forall e :: e in a.fields && e.name == f ==>
      !e.marker.Body? && !(e.marker.Query? && IsPrimitive(e.fieldType))
    ensures forall e :: e in a.fields && e.name == f ==> NullGuarded(e) || !IsRequestKind(KindOf(e.marker))
  {
  }

  /** Null guards: when field `f` holds null and carries neither `@Body` nor
      a `@Query` of primitive type, fillRequest makes exactly the calls it
      would make if `f` were not annotated at all. */
  lemma NullFieldIsIgnored(a: ActionClass, inst: Instance, f: string)
    requires Get(inst, f) == Null
    requires forall e :: e in a.fields && e.name == f ==>
      !e.marker.Body? && !(e.marker.Query? && IsPrimitive(e.fieldType))
    ensures RunRequest(FillRequest(a), inst) == RunRequest(FillRequest(a.(fields := Without(a.fields, f))), inst)
  {
    var a' := a.(fields := Without(a.fields, f));
    SilentWhenNull(a, f);
    SentGroupsWithout(a, RequestGroups, inst, f);
    FillRequestMeaning(a, inst);
    FillRequestMeaning(a', inst);
  }

  /** A call that dereferences no null: every value is null-safe and, except
      the body handed to `setBody`, non-null. */
  predicate CallSafe(c: BuilderCall) {
    match c
    case CallAddPathParam(_, v, _) => v != Null && NullSafe(v)
    case CallAddPart(_, body, _) => body != Null && NullSafe(body)
    case CallAddHeader(_, v) => v != Null && NullSafe(v)
    case CallAddField(_, v) => v != Null && NullSafe(v)
    case CallAddQueryParam(_, v, _, _) => v != Null && NullSafe(v)
    case CallSetBody(body) => NullSafe(body)
    case _ => true
  }

  lemma ExpectedCallSafe(e: AnnotatedField, v: Term)
    requires NullSafe(v)
    requires !NullGuarded(e) || v != Null
    ensures forall c :: c in ExpectedCall(e, v) ==> CallSafe(c)
  {
    match e.marker
    case Part(value, encoding) =>
      var name := if value == "" then e.name else value;
      if e.fieldType == FileType {
        assert ExpectedCall(e, v) == [CallAddPart(name, FileBody(encoding, v), encoding)];
      } else if e.fieldType == ByteArrayType {
        assert ExpectedCall(e, v) == [CallAddPart(name, BytesArrayBody(encoding, v), encoding)];
      } else if e.fieldType == StringType {
        assert ExpectedCall(e, v) == [CallAddPart(name, BytesArrayBody(encoding, GetBytes(v)), encoding)];
        assert NullSafe(GetBytes(v));
      } else {
        assert ExpectedCall(e, v) == [CallAddPart(name, v, encoding)];
      }
    case _ =>
  }

  lemma {:induction false} SentSafe(es: seq<AnnotatedField>, inst: Instance)
    requires forall f :: f in inst ==> NullSafe(inst[f])
    ensures forall c :: c in Sent(es, inst) ==> CallSafe(c)
  {
    if es != [] {
      SentSafe(es[1..], inst);
      var v := Get(inst, es[0].name);
      if !(NullGuarded(es[0]) && v == Null) {
        ExpectedCallSafe(es[0], v);
      }
    }
  }

  lemma {:induction false} SentGroupsSafe(a: ActionClass, ks: seq<MarkerKind>, inst: Instance)
    requires forall f :: f in inst ==> NullSafe(inst[f])
    ensures forall c :: c in SentGroups(a, ks, inst) ==> CallSafe(c)
  {
    if ks != [] {
      SentGroupsSafe(a, ks[1..], inst);
      SentSafe(Consumed(a, ks[0]), inst);
    }
  }

  /** The generated fillRequest never calls a method on null, whatever the
      action holds: every `toString()`, `getBytes()` and body wrapper is
      applied to a non-null value; only `setBody` may receive null. */
  lemma FillRequestNullSafe(a: ActionClass, inst: Instance)
    requires forall f :: f in inst ==> NullSafe(inst[f])
    ensures forall c :: c in RunRequest(FillRequest(a), inst) ==> CallSafe(c)
  {
    FillRequestMeaning(a, inst);
    SentGroupsSafe(a, RequestGroups, inst);
  }

  lemma {:induction false} SentIncludes(es: seq<AnnotatedField>, e: AnnotatedField, inst: Instance)
    requires e in es
    requires !NullGuarded(e) || Get(inst, e.name) != Null
    ensures forall c :: c in ExpectedCall(e, Get(inst, e.name)) ==> c in Sent(es, inst)
  {
    if es[0] != e {
      SentIncludes(es[1..], e, inst);
    }
  }

  lemma {:induction false} SentGroupsIncludes(a: ActionClass, ks: seq<MarkerKind>, k: MarkerKind, e: AnnotatedField, inst: Instance)
    requires k in ks && e in Consumed(a, k)
    requires !NullGuarded(e) || Get(inst, e.name) != Null
    ensures forall c :: c in ExpectedCall(e, Get(inst, e.name)) ==> c in SentGroups(a, ks, inst)
  {
    if ks[0] == k {
      SentIncludes(Consumed(a, k), e, inst);
    } else {
      SentGroupsIncludes(a, ks[1..], k, e, inst);
    }
  }

  /** The call fillRequest makes for a request-side annotation `e` whenever
      its field is non-null or not null-guarded. */
  lemma FillRequestIncludes(a: ActionClass, e: AnnotatedField, inst: Instance)
    requires IsRequestKind(KindOf(e.marker)) && e in Consumed(a, KindOf(e.marker))
    requires !NullGuarded(e) || Get(inst, e.name) != Null
    ensures forall c :: c in ExpectedCall(e, Get(inst, e.name)) ==> c in RunRequest(FillRequest(a), inst)
  {
    FillRequestMeaning(a, inst);
    SentGroupsIncludes(a, RequestGroups, KindOf(e.marker), e, inst);
  }

  /** Name defaulting: a non-null `@Path` field is sent under its annotation
      value, or under its own name when that value is empty. */
  lemma PathParamNaming(a: ActionClass, e: AnnotatedField, inst: Instance)
    requires e in a.fields && e.marker.Path?
    requires Get(inst, e.name) != Null
    ensures e.marker.value != "" ==>
      CallAddPathParam(e.marker.value, ToString(Get(inst, e.name)), e.marker.encode) in RunRequest(FillRequest(a), inst)
    ensures e.marker.value == "" ==>
      CallAddPathParam(e.name, ToString(Get(inst, e.name)), e.marker.encode) in RunRequest(FillRequest(a), inst)
  {
    FillRequestIncludes(a, e, inst);
  }

  /** Multipart body choice: a non-null `@Part` field is sent under its
      annotation value (or its own name when that is empty) with the
      annotation's encoding, wrapped by type: a File in a FileBody, a byte[]
      in a BytesArrayBody, a String in a BytesArrayBody of its bytes, any
      other value as it is. */
  lemma PartBodyChoice(a: ActionClass, e: AnnotatedField, inst: Instance)
    requires e in a.fields && e.marker.Part?
    requires Get(inst, e.name) != Null
    ensures var name := if e.marker.value == "" then e.name else e.marker.value;
      var enc := e.marker.encoding;
      var v := Get(inst, e.name);
      var calls := RunRequest(FillRequest(a), inst);
      && (e.fieldType == FileType ==> CallAddPart(name, FileBody(enc, v), enc) in calls)
      && (e.fieldType == ByteArrayType ==> CallAddPart(name, BytesArrayBody(enc, v), enc) in calls)
      && (e.fieldType == StringType ==> CallAddPart(name, BytesArrayBody(enc, GetBytes(v)), enc) in calls)
      && (e.fieldType !in {FileType, ByteArrayType, StringType} ==> CallAddPart(name, v, enc) in calls)
  {
    var v := Get(inst, e.name);
    FillRequestIncludes(a, e, inst);
    PartCall(e, v);
    assert ExpectedCall(e, v)[0] in ExpectedCall(e, v);
  }

  lemma PartCall(e: AnnotatedField, v: Term)
    requires e.marker.Part?
    ensures |ExpectedCall(e, v)| == 1
    ensures var name := if e.marker.value == "" then e.name else e.marker.value;
      var enc := e.marker.encoding;
      var c := ExpectedCall(e, v)[0];
      && (e.fieldType == FileType ==> c == CallAddPart(name, FileBody(enc, v), enc))
      && (e.fieldType == ByteArrayType ==> c == CallAddPart(name, BytesArrayBody(enc, v), enc))
      && (e.fieldType == StringType ==> c == CallAddPart(name, BytesArrayBody(enc, GetBytes(v)), enc))
      && (e.fieldType !in {FileType, ByteArrayType, StringType} ==> c == CallAddPart(name, v, enc))
  {
  }

  /** A `@Query` field of primitive type is always sent, with
      `String.valueOf` of its value. */
  lemma PrimitiveQueryAlwaysSent(a: ActionClass, e: AnnotatedField, inst: Instance)
    requires e in a.fields && e.marker.Query? && IsPrimitive(e.fieldType)
    ensures CallAddQueryParam(e.marker.value, StringValueOf(Get(inst, e.name)), e.marker.encodeName, e.marker.encodeValue)
      in RunRequest(FillRequest(a), inst)
  {
    FillRequestIncludes(a, e, inst);
  }

  /** The first `@Body` field is handed to setBody unguarded, null included. */
  lemma BodyPassedThrough(a: ActionClass, inst: Instance)
    requires AnnotatedElements(a.fields, BodyKind) != []
    ensures CallSetBody(Get(inst, AnnotatedElements(a.fields, BodyKind)[0].name)) in RunRequest(FillRequest(a), inst)
  {
    var b := AnnotatedElements(a.fields, BodyKind)[0];
    assert b in AnnotatedElements(a.fields, BodyKind);
    assert Consumed(a, BodyKind) == [b];
    BodyCall(b, Get(inst, b.name));
    FillRequestIncludes(a, b, inst);
  }

  lemma BodyCall(b: AnnotatedField, v: Term)
    requires KindOf(b.marker) == BodyKind
    ensures ExpectedCall(b, v) == [CallSetBody(v)]
  {
  }
}
