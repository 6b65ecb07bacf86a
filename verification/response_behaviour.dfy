/** What the generated `onResponse` does to the action, proved of the
    planner's statements run by the interpreter. */
module ResponseBehaviour {
  import opened Wrappers
  import opened JavaTypes
  import opened ActionModel
  import opened Runtime
  import opened HeaderMaps
  import opened Decimal
  import opened Plan
  import opened ResponsePlanner
  import opened Interpreter

  /** The value that the `onResponse` written by `HttpHelpersGenerator`
      (`addStatusField`, `addResponseStatements`, `addResponseHeaders`)
      stores into the field of a response-side annotation `e` that held
      `prior`: the reference the planner is checked against. */
  function ExpectedValue(e: AnnotatedField, resp: HttpResponse, prior: Term): Term {
    match e.marker
    case Status =>
      if e.fieldType in {Primitive(BooleanKind), BoxedBoolean} then Bool(resp.successful)
      else if e.fieldType in {Primitive(IntKind), Primitive(LongKind), BoxedInteger, BoxedLong} then Num(resp.status)
      else if e.fieldType == StringType then Str(IntToString(resp.status))
      else prior
    case Response(code) =>
      if code > 0 && resp.status != code then prior
      else if e.fieldType == ActionBodyType then resp.body
      else if e.fieldType == StringType then ToString(resp.body)
      else FromBody(resp.body, e.fieldType)
    case ResponseHeader(name) => HeaderValue(HeaderMapOf(resp.headers), name)
    case _ => prior
  }

  /** The statements of `ss` before `return action` that write field `f`. */
  function WritesTo(ss: seq<ResponseStep>, f: string): (r: seq<ResponseStep>)
    ensures forall s :: s in r ==> HasTarget(s) && s.target.field == f
  {
    if ss == [] || ss[0] == ReturnAction then []
    else (if HasTarget(ss[0]) && ss[0].target.field == f then [ss[0]] else []) + WritesTo(ss[1..], f)
  }

  /** The value a field holds after the write `s`, when it held `prior`;
      the header map declaration and `return action` write nothing. */
  function AfterWrite(s: ResponseStep, resp: HttpResponse, prior: Term): Term {
    match s
    case AssignStatus(_, p) => StatusValue(p, resp)
    case AssignBody(_, c) => BodyValue(c, resp)
    case IfStatusEquals(code, _, c) => if resp.status == code then BodyValue(c, resp) else prior
    case AssignHeader(_, name) => HeaderValue(HeaderMapOf(resp.headers), name)
    case BuildHeaderMap => prior
    case ReturnAction => prior
  }

  /** The value a field holds after the writes `ws`, in order. */
  function AfterWrites(ws: seq<ResponseStep>, resp: HttpResponse, v: Term): Term {
    if ws == [] then v else AfterWrites(ws[1..], resp, AfterWrite(ws[0], resp, v))
  }

  /** The header map, once declared, is the one built from the response. */
  predicate HeadersFrom(st: ResponseState, resp: HttpResponse) {
    st.headers == None || st.headers == Some(HeaderMapOf(resp.headers))
  }

  lemma {:induction false} RunResponseAppend(xs: seq<ResponseStep>, ys: seq<ResponseStep>, st: ResponseState, resp: HttpResponse)
    requires forall i :: 0 <= i < |xs| ==> xs[i] != ReturnAction
    ensures RunResponse(xs + ys, st, resp) ==
      match RunResponse(xs, st, resp)
      case None => None
      case Some(mid) => RunResponse(ys, mid, resp)
  {
    if xs == [] {
      assert xs + ys == ys;
    } else {
      assert (xs + ys)[1..] == xs[1..] + ys;
      match ExecResponseStep(xs[0], st, resp)
      case None =>
      case Some(next) => RunResponseAppend(xs[1..], ys, next, resp);
    }
  }

  /** Running `xs + ys + [return action]` runs `xs`, then `ys`. */
  lemma RunClosed(xs: seq<ResponseStep>, ys: seq<ResponseStep>, st: ResponseState, resp: HttpResponse)
    requires NoReturn(xs) && NoReturn(ys)
    ensures RunResponse(xs + ys + [ReturnAction], st, resp) ==
      match RunResponse(xs, st, resp)
      case None => None
      case Some(mid) => RunResponse(ys + [ReturnAction], mid, resp)
  {
    assert xs + ys + [ReturnAction] == xs + (ys + [ReturnAction]);
    RunResponseAppend(xs, ys + [ReturnAction], st, resp);
  }

  /** Statements run to the end when no header is read before the map is
      declared; the header map stays declared once it is. */
  lemma {:induction false} RunResponseCompletes(ss: seq<ResponseStep>, st: ResponseState, resp: HttpResponse)
    requires st.headers.Some? || forall i :: 0 <= i < |ss| ==> !ss[i].AssignHeader?
    ensures RunResponse(ss, st, resp).Some?
    ensures st.headers.Some? ==> RunResponse(ss, st, resp).value.headers.Some?
  {
    if ss != [] && ss[0] != ReturnAction {
      var next := ExecResponseStep(ss[0], st, resp);
      assert next.Some?;
      RunResponseCompletes(ss[1..], next.value, resp);
    }
  }

  /** No statement of `ss` reads the header map. */
  predicate NoHeaderReads(ss: seq<ResponseStep>) {
    forall i :: 0 <= i < |ss| ==> !ss[i].AssignHeader?
  }

  lemma NoHeaderReadsAppend(xs: seq<ResponseStep>, ys: seq<ResponseStep>)
    requires NoHeaderReads(xs) && NoHeaderReads(ys)
    ensures NoHeaderReads(xs + ys)
  {
    forall i | 0 <= i < |xs + ys|
      ensures !(xs + ys)[i].AssignHeader?
    {
      if i < |xs| {
        assert (xs + ys)[i] == xs[i];
      } else {
        assert (xs + ys)[i] == ys[i - |xs|];
      }
    }
  }

  /** Annotations other than `@ResponseHeader` never read the header map. */
  lemma {:induction false} LowerResponseNoHeaderReads(a: ActionClass, es: seq<AnnotatedField>)
    requires forall e :: e in es ==> !e.marker.ResponseHeader?
    ensures NoHeaderReads(LowerResponse(a, es))
  {
    if es != [] {
      LowerResponseNoHeaderReads(a, es[1..]);
      assert LowerResponse(a, es) == ResponseStepsFor(a, es[0]) + LowerResponse(a, es[1..]);
    }
  }

  /** `@Status` and `@Response` statements never read the header map. */
  lemma StatusAndBodiesNoHeaders(a: ActionClass)
    ensures NoHeaderReads(StatusAndBodies(a))
  {
    LowerResponseNoHeaderReads(a, AnnotatedElements(a.fields, StatusKind));
    LowerResponseNoHeaderReads(a, AnnotatedElements(a.fields, ResponseKind));
    NoHeaderReadsAppend(LowerResponse(a, AnnotatedElements(a.fields, StatusKind)),
                        LowerResponse(a, AnnotatedElements(a.fields, ResponseKind)));
  }

  /** The header statements run to the end: the map is declared first. */
  lemma HeaderExtractionCompletes(a: ActionClass, st: ResponseState, resp: HttpResponse)
    ensures RunResponse(HeaderExtraction(a), st, resp).Some?
  {
    var hs := AnnotatedElements(a.fields, ResponseHeaderKind);
    var hx := HeaderExtraction(a);
    if hs == [] {
      assert hx == [];
    } else {
      var built := st.(headers := Some(HeaderMapOf(resp.headers)));
      assert hx == [BuildHeaderMap] + LowerResponse(a, hs);
      RunResponseCompletes(LowerResponse(a, hs), built, resp);
      assert hx[1..] == LowerResponse(a, hs);
    }
  }

  /** The generated onResponse never reads the header map before declaring
      it, so no statement lacks the map. Whether a statement dereferences a
      null body is a separate question, answered by `OnResponseNullSafe` and
      `NullBodyDereferenced`. */
  lemma OnResponseCompletes(a: ActionClass, inst: Instance, resp: HttpResponse)
    ensures RunOnResponse(OnResponse(a), inst, resp).Some?
  {
    var st := ResponseState(inst, None);
    var sab := StatusAndBodies(a);
    var hx := HeaderExtraction(a);
    StatusAndBodiesNoHeaders(a);
    StatusAndBodiesNoReturn(a);
    HeaderExtractionNoReturn(a);
    RunResponseCompletes(sab, st, resp);
    var mid := RunResponse(sab, st, resp).value;
    HeaderExtractionCompletes(a, mid, resp);
    RunResponseAppend(hx, [ReturnAction], mid, resp);
    RunClosed(sab, hx, st, resp);
  }

  /** Per field, running the statements applies the writes to that field, in
      order, to its prior value. */
  lemma {:induction false} RunResponseField(ss: seq<ResponseStep>, st: ResponseState, resp: HttpResponse, f: string)
    requires HeadersFrom(st, resp)
    requires RunResponse(ss, st, resp).Some?
    ensures Get(RunResponse(ss, st, resp).value.action, f) == AfterWrites(WritesTo(ss, f), resp, Get(st.action, f))
  {
    if ss != [] && ss[0] != ReturnAction {
      var s := ss[0];
      var next := ExecResponseStep(s, st, resp).value;
      assert RunResponse(ss, st, resp) == RunResponse(ss[1..], next, resp);
      assert HeadersFrom(next, resp);
      RunResponseField(ss[1..], next, resp, f);
      if HasTarget(s) && s.target.field == f {
        assert Get(next.action, f) == AfterWrite(s, resp, Get(st.action, f));
        assert WritesTo(ss, f) == [s] + WritesTo(ss[1..], f);
      } else {
        assert Get(next.action, f) == Get(st.action, f);
        assert [] + WritesTo(ss[1..], f) == WritesTo(ss[1..], f);
        assert WritesTo(ss, f) == WritesTo(ss[1..], f);
      }
    }
  }

  lemma {:induction false} WritesToAppend(xs: seq<ResponseStep>, ys: seq<ResponseStep>, f: string)
    requires forall i :: 0 <= i < |xs| ==> xs[i] != ReturnAction
    ensures WritesTo(xs + ys, f) == WritesTo(xs, f) + WritesTo(ys, f)
  {
    if xs == [] {
      assert xs + ys == ys;
    } else {
      assert (xs + ys)[1..] == xs[1..] + ys;
      WritesToAppend(xs[1..], ys, f);
    }
  }

  /** The statements for one annotation all write its field. */
  lemma WritesToSteps(a: ActionClass, e: AnnotatedField, f: string)
    ensures WritesTo(ResponseStepsFor(a, e), f) == if e.name == f then ResponseStepsFor(a, e) else []
  {
    var r := ResponseStepsFor(a, e);
    if r != [] {
      assert r[1..] == [];
      assert r[0] in r;
    }
  }

  /** The writes to `f` among the statements for `es` are the statements for
      the annotations of `f`. */
  lemma {:induction false} WritesToLower(a: ActionClass, es: seq<AnnotatedField>, f: string)
    ensures WritesTo(LowerResponse(a, es), f) == LowerResponse(a, Named(es, f))
  {
    if es != [] {
      var e := es[0];
      var head := if e.name == f then [e] else [];
      WritesToLower(a, es[1..], f);
      WritesToSteps(a, e, f);
      WritesToAppend(ResponseStepsFor(a, e), LowerResponse(a, es[1..]), f);
      assert Named(es, f) == head + Named(es[1..], f);
      LowerResponseAppend(a, head, Named(es[1..], f));
      assert LowerResponse(a, [e]) == ResponseStepsFor(a, e) + LowerResponse(a, []);
    }
  }

  /** The writes `@Status` and `@Response` statements make to `f`. */
  lemma WritesToStatusAndBodies(a: ActionClass, f: string)
    ensures WritesTo(StatusAndBodies(a), f) ==
      LowerResponse(a, AnnotatedElements(Named(a.fields, f), StatusKind))
      + LowerResponse(a, AnnotatedElements(Named(a.fields, f), ResponseKind))
  {
    var s0 := AnnotatedElements(a.fields, StatusKind);
    var s1 := AnnotatedElements(a.fields, ResponseKind);
    ElementsNamed(a.fields, StatusKind, f);
    ElementsNamed(a.fields, ResponseKind, f);
    WritesToLower(a, s0, f);
    WritesToLower(a, s1, f);
    WritesToAppend(LowerResponse(a, s0), LowerResponse(a, s1), f);
  }

  /** The writes the header statements make to `f`: the map declaration
      writes no field. */
  lemma WritesToHeaderExtraction(a: ActionClass, f: string)
    ensures WritesTo(HeaderExtraction(a), f) ==
      LowerResponse(a, AnnotatedElements(Named(a.fields, f), ResponseHeaderKind))
  {
    var hs := AnnotatedElements(a.fields, ResponseHeaderKind);
    ElementsNamed(a.fields, ResponseHeaderKind, f);
    WritesToLower(a, hs, f);
    WritesToAfterMap(HeaderMapPreamble(a), LowerResponse(a, hs), f);
  }

  /** The header map declaration writes no field. */
  lemma WritesToAfterMap(pre: seq<ResponseStep>, l: seq<ResponseStep>, f: string)
    requires pre == [] || pre == [BuildHeaderMap]
    ensures WritesTo(pre + l, f) == WritesTo(l, f)
  {
    if pre == [] {
      assert pre + l == l;
    } else {
      assert (pre + l)[1..] == l;
    }
  }

  /** The statements onResponse emits for the annotations `fs` of one field:
      the `@Status` ones, then the `@Response` ones, then the
      `@ResponseHeader` ones. */
  function FieldWrites(a: ActionClass, fs: seq<AnnotatedField>): seq<ResponseStep> {
    LowerResponse(a, AnnotatedElements(fs, StatusKind))
    + LowerResponse(a, AnnotatedElements(fs, ResponseKind))
    + LowerResponse(a, AnnotatedElements(fs, ResponseHeaderKind))
  }

  lemma WritesToClosing(xs: seq<ResponseStep>, ys: seq<ResponseStep>, f: string)
    requires NoReturn(xs) && NoReturn(ys)
    ensures WritesTo(xs + ys + [ReturnAction], f) == WritesTo(xs, f) + WritesTo(ys, f)
  {
    NoReturnAppend(xs, ys);
    WritesToAppend(xs, ys, f);
    assert WritesTo([ReturnAction], f) == [];
    WritesToAppend(xs + ys, [ReturnAction], f);
  }

  /** The writes onResponse makes to field `f`: the statements for the
      `@Status`, then `@Response`, then `@ResponseHeader` annotations of `f`. */
  lemma WritesToOnResponse(a: ActionClass, f: string)
    ensures WritesTo(OnResponse(a), f) == FieldWrites(a, Named(a.fields, f))
  {
    StatusAndBodiesNoReturn(a);
    HeaderExtractionNoReturn(a);
    WritesToStatusAndBodies(a, f);
    WritesToHeaderExtraction(a, f);
    WritesToClosing(StatusAndBodies(a), HeaderExtraction(a), f);
  }

  /** The statements for one annotation move its field's value exactly as
      the reference says. */
  lemma StepsValue(a: ActionClass, e: AnnotatedField, resp: HttpResponse, prior: Term)
    ensures forall s :: s in ResponseStepsFor(a, e) ==> HasTarget(s)
    ensures AfterWrites(ResponseStepsFor(a, e), resp, prior) == ExpectedValue(e, resp, prior)
  {
    var r := ResponseStepsFor(a, e);
    if r != [] {
      assert r[1..] == [];
    }
  }

  lemma {:induction false} LowerResponseNone(a: ActionClass, es: seq<AnnotatedField>)
    requires forall e :: e in es ==> !Emits(e)
    ensures LowerResponse(a, es) == []
  {
    if es != [] {
      LowerResponseNone(a, es[1..]);
    }
  }

  /** A field that carries no response-side annotation with a statement
      keeps its value through onResponse. */
  lemma UnboundFieldUnchanged(a: ActionClass, inst: Instance, resp: HttpResponse, f: string)
    requires forall e :: e in a.fields && e.name == f ==> !Emits(e)
    ensures RunOnResponse(OnResponse(a), inst, resp).Some?
    ensures Get(RunOnResponse(OnResponse(a), inst, resp).value, f) == Get(inst, f)
  {
    OnResponseCompletes(a, inst, resp);
    RunResponseField(OnResponse(a), ResponseState(inst, None), resp, f);
    WritesToOnResponse(a, f);
    var n := Named(a.fields, f);
    LowerResponseNone(a, AnnotatedElements(n, StatusKind));
    LowerResponseNone(a, AnnotatedElements(n, ResponseKind));
    LowerResponseNone(a, AnnotatedElements(n, ResponseHeaderKind));
  }

  /** The statements for the annotations of kind `k` among a single one. */
  lemma LowerSingle(a: ActionClass, e: AnnotatedField, k: MarkerKind)
    ensures LowerResponse(a, AnnotatedElements([e], k)) ==
      if KindOf(e.marker) == k then ResponseStepsFor(a, e) else []
  {
    assert [e][1..] == [];
    assert AnnotatedElements([e], k) == if KindOf(e.marker) == k then [e] else [];
    assert LowerResponse(a, [e]) == ResponseStepsFor(a, e) + LowerResponse(a, []);
  }

  /** A single annotation's statements are all its field gets. */
  lemma FieldWritesSingle(a: ActionClass, e: AnnotatedField)
    ensures FieldWrites(a, [e]) == ResponseStepsFor(a, e)
  {
    var k := KindOf(e.marker);
    var r := ResponseStepsFor(a, e);
    LowerSingle(a, e, StatusKind);
    LowerSingle(a, e, ResponseKind);
    LowerSingle(a, e, ResponseHeaderKind);
    OneOfThree(k, r);
  }

  /** Of three slots keyed by the response kinds, only `k`'s holds `r`. */
  lemma OneOfThree(k: MarkerKind, r: seq<ResponseStep>)
    requires !IsResponseKind(k) ==> r == []
    ensures (if k == StatusKind then r else []) + (if k == ResponseKind then r else [])
      + (if k == ResponseHeaderKind then r else []) == r
  {
    match k
    case StatusKind => assert r + [] + [] == r;
    case ResponseKind => assert [] + r + [] == r;
    case ResponseHeaderKind => assert [] + [] + r == r;
    case _ => assert [] + [] + [] == r;
  }

  /** For a field with exactly one annotation, onResponse writes it only
      through that annotation's statements. */
  lemma SingleWrites(a: ActionClass, e: AnnotatedField)
    requires Named(a.fields, e.name) == [e]
    ensures WritesTo(OnResponse(a), e.name) == ResponseStepsFor(a, e)
  {
    WritesToOnResponse(a, e.name);
    FieldWritesSingle(a, e);
  }

  /** A field with exactly one annotation ends up holding the reference value:
      a `@Status` field its projection of the status (or its old value on an
      unsupported type), a `@Response(code)` field the converted body when
      `code` is 0 or negative or equals the status (its old value otherwise),
      a `@ResponseHeader(name)` field the header map's value for `name`. */
  lemma SingleBindingOutcome(a: ActionClass, inst: Instance, resp: HttpResponse, e: AnnotatedField)
    requires Named(a.fields, e.name) == [e]
    ensures RunOnResponse(OnResponse(a), inst, resp).Some?
    ensures Get(RunOnResponse(OnResponse(a), inst, resp).value, e.name) == ExpectedValue(e, resp, Get(inst, e.name))
  {
    var ss := OnResponse(a);
    OnResponseCompletes(a, inst, resp);
    RunResponseField(ss, ResponseState(inst, None), resp, e.name);
    SingleWrites(a, e);
    StepsValue(a, e, resp, Get(inst, e.name));
  }

  lemma StatusTextValue(e: AnnotatedField, resp: HttpResponse, prior: Term)
    requires e.marker.Status? && e.fieldType == StringType
    ensures ExpectedValue(e, resp, prior) == Str(IntToString(resp.status))
  {
  }

  /** A `String` `@Status` field receives the decimal text of the status,
      which reads back as the status. */
  lemma StatusTextReadsBack(a: ActionClass, inst: Instance, resp: HttpResponse, e: AnnotatedField)
    requires Named(a.fields, e.name) == [e]
    requires e.marker.Status? && e.fieldType == StringType
    ensures RunOnResponse(OnResponse(a), inst, resp).Some?
    ensures var v := Get(RunOnResponse(OnResponse(a), inst, resp).value, e.name);
      v.Str? && ParseInt(v.s) == Some(resp.status)
  {
    SingleBindingOutcome(a, inst, resp, e);
    StatusTextValue(e, resp, Get(inst, e.name));
    IntToStringRoundTrip(resp.status);
  }

  /** A `@ResponseHeader(name)` field sees the value of the last response
      header called `name`: the map keeps the last `put`. */
  lemma ResponseHeaderLastWins(a: ActionClass, inst: Instance, resp: HttpResponse, e: AnnotatedField, i: nat)
    requires Named(a.fields, e.name) == [e]
    requires e.marker.ResponseHeader?
    requires i < |resp.headers| && resp.headers[i].name == e.marker.value && LastWithName(resp.headers, i)
    ensures RunOnResponse(OnResponse(a), inst, resp).Some?
    ensures LookupGives(Get(RunOnResponse(OnResponse(a), inst, resp).value, e.name), e.marker.value, resp.headers[i].value)
  {
    SingleBindingOutcome(a, inst, resp, e);
    HeaderMapLastWins(resp.headers, i);
  }

  /** `v` is the lookup of header `n` in a map that holds `value` for it. */
  predicate LookupGives(v: Term, n: string, value: string) {
    v.HeaderValue? && v.name == n && n in v.headers && v.headers[n] == value
  }

  /** Every field ends up as its old value run through the statements for
      its own annotations, `@Status` first, then `@Response`, then
      `@ResponseHeader`, each kind in discovery order: a later one overwrites
      an earlier one. */
  lemma OnResponseFieldValue(a: ActionClass, inst: Instance, resp: HttpResponse, f: string)
    ensures RunOnResponse(OnResponse(a), inst, resp).Some?
    ensures Get(RunOnResponse(OnResponse(a), inst, resp).value, f) ==
      AfterWrites(FieldWrites(a, Named(a.fields, f)), resp, Get(inst, f))
  {
    var ss := OnResponse(a);
    OnResponseCompletes(a, inst, resp);
    RunResponseField(ss, ResponseState(inst, None), resp, f);
    WritesToOnResponse(a, f);
    assert WritesTo(ss, f) == FieldWrites(a, Named(a.fields, f));
  }

  /** The values the statements store dereference no null, provided the
      prior value and the response body do not and the body is not null. */
  lemma {:induction false} AfterWritesNullSafe(ws: seq<ResponseStep>, resp: HttpResponse, v: Term)
    requires NullSafe(v)
    requires resp.body != Null && NullSafe(resp.body)
    ensures NullSafe(AfterWrites(ws, resp, v))
    decreases |ws|
  {
    if ws != [] {
      AfterWritesNullSafe(ws[1..], resp, AfterWrite(ws[0], resp, v));
    }
  }

  /** With a non-null response body, no field of the returned action holds
      a value whose evaluation calls a method on null: every `toString()`
      the generated code applies has a non-null receiver. */
  lemma OnResponseNullSafe(a: ActionClass, inst: Instance, resp: HttpResponse, f: string)
    requires forall g :: g in inst ==> NullSafe(inst[g])
    requires resp.body != Null && NullSafe(resp.body)
    ensures RunOnResponse(OnResponse(a), inst, resp).Some?
    ensures NullSafe(Get(RunOnResponse(OnResponse(a), inst, resp).value, f))
  {
    OnResponseFieldValue(a, inst, resp, f);
    AfterWritesNullSafe(FieldWrites(a, Named(a.fields, f)), resp, Get(inst, f));
  }

  /** With a null body, a `String` `@Response` field whose status test
      passes is assigned `response.getBody().toString()` of null: the
      statement throws a NullPointerException. */
  lemma NullBodyDereferenced(a: ActionClass, inst: Instance, resp: HttpResponse, e: AnnotatedField)
    requires Named(a.fields, e.name) == [e]
    requires e.marker.Response? && e.fieldType == StringType
    requires e.marker.status <= 0 || resp.status == e.marker.status
    requires resp.body == Null
    ensures RunOnResponse(OnResponse(a), inst, resp).Some?
    ensures !NullSafe(Get(RunOnResponse(OnResponse(a), inst, resp).value, e.name))
  {
    SingleBindingOutcome(a, inst, resp, e);
    NullBodyText(e, resp, Get(inst, e.name));
  }

  lemma NullBodyText(e: AnnotatedField, resp: HttpResponse, prior: Term)
    requires e.marker.Response? && e.fieldType == StringType
    requires e.marker.status <= 0 || resp.status == e.marker.status
    requires resp.body == Null
    ensures ExpectedValue(e, resp, prior) == ToString(Null)
  {
  }
}
