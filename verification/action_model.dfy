/** One `@HttpAction` class as the annotation processor hands it to the
    helper generator: its HTTP settings and its annotated fields. */
module ActionModel {
  import opened JavaTypes

  /** The verb of `@HttpAction(method = ...)`; the generator copies it verbatim. */
  datatype Method = Method(verb: string)

  /** `@HttpAction(type = ...)`: how the request body is encoded. */
  datatype RequestType = Simple | FormUrlEncoded | Multipart

  /** The field annotations with their attributes. */
  datatype Marker =
    | Path(value: string, encode: bool)
    | Query(value: string, encodeName: bool, encodeValue: bool)
    | Field(value: string)
    | RequestHeader(value: string)
    | Body
    | Part(value: string, encoding: string)
    | Response(status: int)
    | ResponseHeader(value: string)
    | Status

  /** The annotation classes, as passed to `getAnnotatedElements`. */
  datatype MarkerKind =
    | PathKind | QueryKind | FieldKind | RequestHeaderKind | BodyKind | PartKind
    | ResponseKind | ResponseHeaderKind | StatusKind

  function KindOf(m: Marker): MarkerKind {
    match m
    case Path(_, _) => PathKind
    case Query(_, _, _) => QueryKind
    case Field(_) => FieldKind
    case RequestHeader(_) => RequestHeaderKind
    case Body => BodyKind
    case Part(_, _) => PartKind
    case Response(_) => ResponseKind
    case ResponseHeader(_) => ResponseHeaderKind
    case Status => StatusKind
  }

  /** One annotation on one field. `enclosing` is the class that declares the
      field: the action class itself or one of its superclasses. A field that
      carries two annotations appears once per annotation. */
  datatype AnnotatedField = AnnotatedField(
    name: string,
    enclosing: string,
    fieldType: JType,
    marker: Marker)

  /** The action class: its own name, its `@HttpAction` settings and its
      annotated fields in discovery order. */
  datatype ActionClass = ActionClass(
    typeName: string,
    httpMethod: Method,
    requestType: RequestType,
    path: string,
    fields: seq<AnnotatedField>)

  /** `getAnnotatedElements(k)`: the fields carrying a `k` annotation, in
      discovery order. */
  function AnnotatedElements(fields: seq<AnnotatedField>, k: MarkerKind): (r: seq<AnnotatedField>)
    ensures forall e :: e in r <==> e in fields && KindOf(e.marker) == k
    ensures |r| <= |fields|
  {
    if fields == [] then []
    else (if KindOf(fields[0].marker) == k then [fields[0]] else []) + AnnotatedElements(fields[1..], k)
  }

  /** The annotations on the field called `f`, in order. */
  function Named(fields: seq<AnnotatedField>, f: string): (r: seq<AnnotatedField>)
    ensures forall e :: e in r <==> e in fields && e.name == f
  {
    if fields == [] then []
    else (if fields[0].name == f then [fields[0]] else []) + Named(fields[1..], f)
  }

  /** The annotations on every field except the one called `f`, in order. */
  function Without(fields: seq<AnnotatedField>, f: string): (r: seq<AnnotatedField>)
    ensures forall e :: e in r <==> e in fields && e.name != f
  {
    if fields == [] then []
    else (if fields[0].name != f then [fields[0]] else []) + Without(fields[1..], f)
  }

  /** The field names, in order. */
  function Names(fields: seq<AnnotatedField>): (r: seq<string>)
    ensures |r| == |fields|
    ensures forall i :: 0 <= i < |fields| ==> r[i] == fields[i].name
  {
    if fields == [] then [] else [fields[0].name] + Names(fields[1..])
  }

  /** Selecting one annotation kind commutes with dropping a field. */
  lemma {:induction false} ElementsWithout(fields: seq<AnnotatedField>, k: MarkerKind, f: string)
    ensures AnnotatedElements(Without(fields, f), k) == Without(AnnotatedElements(fields, k), f)
  {
    if fields != [] {
      ElementsWithout(fields[1..], k, f);
      var e := fields[0];
      assert Without(fields, f) == (if e.name != f then [e] else []) + Without(fields[1..], f);
      ElementsAppend(if e.name != f then [e] else [], Without(fields[1..], f), k);
      WithoutAppend(if KindOf(e.marker) == k then [e] else [], AnnotatedElements(fields[1..], k), f);
    }
  }

  /** Selecting one annotation kind commutes with keeping one field. */
  lemma {:induction false} ElementsNamed(fields: seq<AnnotatedField>, k: MarkerKind, f: string)
    ensures AnnotatedElements(Named(fields, f), k) == Named(AnnotatedElements(fields, k), f)
  {
    if fields != [] {
      ElementsNamed(fields[1..], k, f);
      var e := fields[0];
      ElementsAppend(if e.name == f then [e] else [], Named(fields[1..], f), k);
      NamedAppend(if KindOf(e.marker) == k then [e] else [], AnnotatedElements(fields[1..], k), f);
    }
  }

  lemma {:induction false} ElementsAppend(xs: seq<AnnotatedField>, ys: seq<AnnotatedField>, k: MarkerKind)
    ensures AnnotatedElements(xs + ys, k) == AnnotatedElements(xs, k) + AnnotatedElements(ys, k)
  {
    if xs != [] {
      assert (xs + ys)[1..] == xs[1..] + ys;
      ElementsAppend(xs[1..], ys, k);
    } else {
      assert xs + ys == ys;
    }
  }

  lemma {:induction false} WithoutAppend(xs: seq<AnnotatedField>, ys: seq<AnnotatedField>, f: string)
    ensures Without(xs + ys, f) == Without(xs, f) + Without(ys, f)
  {
    if xs != [] {
      assert (xs + ys)[1..] == xs[1..] + ys;
      WithoutAppend(xs[1..], ys, f);
    } else {
      assert xs + ys == ys;
    }
  }

  lemma {:induction false} NamedAppend(xs: seq<AnnotatedField>, ys: seq<AnnotatedField>, f: string)
    ensures Named(xs + ys, f) == Named(xs, f) + Named(ys, f)
  {
    if xs != [] {
      assert (xs + ys)[1..] == xs[1..] + ys;
      NamedAppend(xs[1..], ys, f);
    } else {
      assert xs + ys == ys;
    }
  }

  /** Dropping a field no annotation names changes nothing. */
  lemma {:induction false} WithoutAbsent(fields: seq<AnnotatedField>, f: string)
    requires forall e :: e in fields ==> e.name != f
    ensures Without(fields, f) == fields
  {
    if fields != [] {
      WithoutAbsent(fields[1..], f);
    }
  }
}
