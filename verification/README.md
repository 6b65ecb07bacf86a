# janet HTTP helper generator — binding planner model

janet's HTTP adapter ships an annotation processor, `HttpHelpersGenerator`,
that writes one helper class per `@HttpAction` class. The helper has two
methods:

- `fillRequest(requestBuilder, action)` sets the HTTP method, the request
  type and the path on the builder. It then hands the action's annotated
  fields to the builder: `@Path`, `@Part`, `@RequestHeader`, `@Field`,
  `@Query` and `@Body`, in that order. Finally it returns the builder.
- `onResponse(action, response, converter)` stores response data into the
  action's fields. It writes `@Status`, then `@Response` bodies. Next it
  builds a header map and writes `@ResponseHeader` values. Finally it returns
  the action.

This project models the generator's planning logic. The generated statements
are a list of typed steps. Two planners produce them:

- `RequestPlanner.FillRequest` produces `RequestStep`s.
- `ResponsePlanner.OnResponse` produces `ResponseStep`s.

A small interpreter (`Interpreter`) gives those steps their run-time meaning:

- A request plan turns into the trace of `RequestBuilder` calls it makes.
- A response plan turns into the updated action.

An action instance is a map from field name to a symbolic value. A missing
entry is `null`.

The proofs tie the planners to two independent reference definitions:

- `RequestBehaviour.ExpectedCall` gives, for one annotation, the builder call
  the source emits.
- `ResponseBehaviour.ExpectedValue` gives, for one annotation, the value the
  source stores into the field.

Files and modules:

| file | module | contents |
|---|---|---|
| `wrappers.dfy` | `Wrappers` | `Option` |
| `java_types.dfy` | `JavaTypes` | the Java field types the generator distinguishes |
| `action_model.dfy` | `ActionModel` | annotations, annotated fields, the action class, `getAnnotatedElements` |
| `runtime.dfy` | `Runtime` | symbolic values, action instances, the response, `RequestBuilder` calls |
| `decimal.dfy` | `Decimal` | `Integer.toString(int)` and its reading |
| `header_map.dfy` | `HeaderMaps` | the `HashMap` built from the response headers |
| `plan.dfy` | `Plan` | request and response steps, their groups, ordering predicates |
| `request_planner.dfy` | `RequestPlanner` | `createFillRequestMethod` and the six `add…` request helpers |
| `response_planner.dfy` | `ResponsePlanner` | `createOnResponseMethod`, the status, response and header helpers, `getFieldAddress` |
| `interpreter.dfy` | `Interpreter` | what the generated statements do when they run |
| `request_behaviour.dfy` | `RequestBehaviour` | properties of the `fillRequest` trace |
| `response_behaviour.dfy` | `ResponseBehaviour` | properties of the action after `onResponse` |
| `boundary.dfy` | `Boundaries` | actions with no request or no response annotations |

Behaviours of the generator worth noting:

- `@Response` entries are emitted in declaration order, and catch-all
  entries are not moved after the status-specific ones. A Java field carries
  at most one `@Response`, so a specific entry and a catch-all always write
  different fields. The consequence is that a catch-all runs on every
  status: with `@Response(200) User ok` and `@Response Error err`, a status
  of 200 converts the body into both `ok` and `err`.
- A second `@Body` field is ignored, because the loop breaks after the first.
  No error is reported.
- A `@Status` field of an unsupported type produces no statement. No error is
  reported.
- No marker/variant validation happens. `@Field` and `@Part` are bound
  whatever the request type is. A field carrying two annotations is bound
  once per annotation. The model also admits two annotations of the same kind
  on one field, which Java cannot produce.
- `fillRequest` always reads a field as `action.f`. Only the `onResponse`
  writes use the cast address of `getFieldAddress`.
- Every `@Response` status `<= 0` is unguarded, not only `0`.
- Only `@Path` and `@Part` fall back to the field's simple name when the
  annotation value is empty. `@Query`, `@Field` and `@RequestHeader` use the
  annotation value as it is.

## Model

| member | source | states |
|---|---|---|
| ActionModel.AnnotatedElements | janet-http/adapter-compiler/src/main/java/io/techery/janet/HttpHelpersGenerator.java:185-187 | the elements bound for an annotation are exactly the action's fields carrying it, and never more than the action has |
| RequestPlanner.RequestStepsFor | janet-http/adapter-compiler/src/main/java/io/techery/janet/HttpHelpersGenerator.java:89-165 | one field yields at most one statement. It yields none iff it has no request annotation. The statement is wrapped in a null check iff the field is a `@Path`, `@Part`, `@RequestHeader`, `@Field` or non-primitive `@Query`. A primitive `@Query` yields an unguarded `String.valueOf` statement and nothing else does. `@Body` yields exactly `setBody` of that field. The statement lies in the group of its annotation and reads only that field |
| RequestPlanner.FillRequest | janet-http/adapter-compiler/src/main/java/io/techery/janet/HttpHelpersGenerator.java:69-87 | `fillRequest` starts with `setMethod`, `setRequestType`, `setPath` of the action's values. It ends with `return requestBuilder`, and nothing before that returns |
| RequestPlanner.FillRequestOrdered | janet-http/adapter-compiler/src/main/java/io/techery/janet/HttpHelpersGenerator.java:76-85 | statements appear in group order: preamble, path params, parts, headers, fields, queries, body, return |
| RequestPlanner.FillRequestGroups | janet-http/adapter-compiler/src/main/java/io/techery/janet/HttpHelpersGenerator.java:79-84 | for each request annotation, the fields read in its group are the fields that annotation binds, in declaration order (the first `@Body` only) |
| RequestPlanner.FillRequestBody | janet-http/adapter-compiler/src/main/java/io/techery/janet/HttpHelpersGenerator.java:111-116 | the body group is empty without `@Body`. Otherwise it reads exactly the first `@Body` field |
| RequestBehaviour.LowerMeaning | janet-http/adapter-compiler/src/main/java/io/techery/janet/HttpHelpersGenerator.java:89-109 | running one group's statements gives, field by field, the reference call of each field whose value passes its null check |
| RequestBehaviour.FillRequestMeaning | janet-http/adapter-compiler/src/main/java/io/techery/janet/HttpHelpersGenerator.java:69-87 | running `fillRequest` gives the three preamble calls, then each group's reference calls in group order |
| RequestBehaviour.FillRequestCallOrder | janet-http/adapter-compiler/src/main/java/io/techery/janet/HttpHelpersGenerator.java:76-85 | the builder sees `setMethod`, `setRequestType`, `setPath` first, and every later call in nondecreasing group order |
| RequestBehaviour.NullFieldIsIgnored | janet-http/adapter-compiler/src/main/java/io/techery/janet/HttpHelpersGenerator.java:136-138 | a null field that is not `@Body` and not a primitive `@Query` leaves the builder trace as if the field were not annotated at all |
| RequestBehaviour.FillRequestNullSafe | janet-http/adapter-compiler/src/main/java/io/techery/janet/HttpHelpersGenerator.java:101-105 | when every field value is itself null-safe, no builder call dereferences null. Every argument except the `setBody` body is non-null, and no `toString`, `getBytes` or body wrapper is applied to null. Null checks guard every dereference, and primitive queries use `String.valueOf` |
| RequestBehaviour.FillRequestIncludes | janet-http/adapter-compiler/src/main/java/io/techery/janet/HttpHelpersGenerator.java:79-84 | every bound field that passes its null check contributes its reference call to the trace |
| RequestBehaviour.PathParamNaming | janet-http/adapter-compiler/src/main/java/io/techery/janet/HttpHelpersGenerator.java:127-140 | a non-null `@Path` field is sent as `addPathParam` under the annotation value, or under the field name when the value is empty, with `toString` of the field and the annotation's `encode` |
| RequestBehaviour.PartBodyChoice | janet-http/adapter-compiler/src/main/java/io/techery/janet/HttpHelpersGenerator.java:142-165 | a non-null `@Part` field is sent under its defaulted name with the annotation's encoding. A File is wrapped in `FileBody`, a `byte[]` in `BytesArrayBody`, a String in `BytesArrayBody` of its bytes, and anything else is passed as the body itself |
| RequestBehaviour.PrimitiveQueryAlwaysSent | janet-http/adapter-compiler/src/main/java/io/techery/janet/HttpHelpersGenerator.java:101-102 | a primitive `@Query` field is always sent, as `String.valueOf` of its value with both encode flags |
| RequestBehaviour.BodyPassedThrough | janet-http/adapter-compiler/src/main/java/io/techery/janet/HttpHelpersGenerator.java:111-116 | the first `@Body` field is handed to `setBody` unguarded, null included |
| Boundaries.BareRequest | janet-http/adapter-compiler/src/main/java/io/techery/janet/HttpHelpersGenerator.java:69-87 | an action with no request annotations makes exactly the three preamble calls |
| ResponsePlanner.ResponseStepsFor | janet-http/adapter-compiler/src/main/java/io/techery/janet/HttpHelpersGenerator.java:184-241 | one field yields at most one assignment. It yields one iff the field is a `@Response`, a `@ResponseHeader`, or a `@Status` of boolean, Boolean, int, long, Integer, Long or String type. The assignment writes that field through its address, in its annotation's group. A `@Response` assignment is wrapped in a status test iff its code is positive |
| ResponsePlanner.EmittingAll | janet-http/adapter-compiler/src/main/java/io/techery/janet/HttpHelpersGenerator.java:187-196 | every `@Response` and `@ResponseHeader` field gets its assignment, whatever its type or code |
| ResponsePlanner.OnResponse | janet-http/adapter-compiler/src/main/java/io/techery/janet/HttpHelpersGenerator.java:167-182 | `onResponse` ends with `return action` |
| ResponsePlanner.OnResponseReturnsLast | janet-http/adapter-compiler/src/main/java/io/techery/janet/HttpHelpersGenerator.java:176-180 | no statement before the last one returns |
| ResponsePlanner.OnResponseOrdered | janet-http/adapter-compiler/src/main/java/io/techery/janet/HttpHelpersGenerator.java:176-180 | statements appear in group order: status, response bodies, header map, response headers, return |
| ResponsePlanner.OnResponseGroups | janet-http/adapter-compiler/src/main/java/io/techery/janet/HttpHelpersGenerator.java:176-179 | for each response annotation, the fields written in its group are the fields with that annotation that get an assignment, in declaration order |
| ResponsePlanner.HeaderMapBuiltOnce | janet-http/adapter-compiler/src/main/java/io/techery/janet/HttpHelpersGenerator.java:210-218 | the header map is declared once when some `@ResponseHeader` exists, and never otherwise |
| ResponsePlanner.HeaderMapBeforeHeaders | janet-http/adapter-compiler/src/main/java/io/techery/janet/HttpHelpersGenerator.java:178-179 | every header assignment comes after the header map declaration |
| ResponsePlanner.OnResponseAddressed | janet-http/adapter-compiler/src/main/java/io/techery/janet/HttpHelpersGenerator.java:243-251 | every assignment in `onResponse` writes a field `f` of one of the action's annotated fields. It writes through `action.f` when the action class itself declares the field, and through `((Owner) action).f` for the declaring class `Owner` otherwise |
| ResponsePlanner.EmittingFieldWritten | janet-http/adapter-compiler/src/main/java/io/techery/janet/HttpHelpersGenerator.java:200 | conversely, every field whose annotation yields a statement is written by some assignment of `onResponse`, at the address that same rule gives it |
| ResponseBehaviour.OnResponseCompletes | janet-http/adapter-compiler/src/main/java/io/techery/janet/HttpHelpersGenerator.java:178-179 | running `onResponse` never reads the header map before it is declared |
| ResponseBehaviour.OnResponseNullSafe | janet-http/adapter-compiler/src/main/java/io/techery/janet/HttpHelpersGenerator.java:199-208 | when the response body is non-null and no value involved dereferences null, every field of the returned action holds a value that calls no method on null |
| ResponseBehaviour.NullBodyDereferenced | janet-http/adapter-compiler/src/main/java/io/techery/janet/HttpHelpersGenerator.java:204 | with a null body, a `String` `@Response` field whose status test passes is assigned `toString()` of null, so that statement throws |
| ResponseBehaviour.WritesToOnResponse | janet-http/adapter-compiler/src/main/java/io/techery/janet/HttpHelpersGenerator.java:176-179 | the writes to a field are its status write, then its response writes, then its header writes, in declaration order |
| ResponseBehaviour.OnResponseFieldValue | janet-http/adapter-compiler/src/main/java/io/techery/janet/HttpHelpersGenerator.java:167-182 | after `onResponse`, every field holds what its own writes, applied in order, leave in its prior value |
| ResponseBehaviour.UnboundFieldUnchanged | janet-http/adapter-compiler/src/main/java/io/techery/janet/HttpHelpersGenerator.java:167-182 | a field with no response assignment keeps its value |
| ResponseBehaviour.StepsValue | janet-http/adapter-compiler/src/main/java/io/techery/janet/HttpHelpersGenerator.java:184-241 | one field's assignment stores the reference value of its annotation and type. That is `isSuccessful()`, the status, or its decimal text for `@Status`. It is the raw body, its `toString()` or the converter's result for a `@Response` whose code matches or is not positive, and the prior value otherwise. It is the header map's entry for `@ResponseHeader` |
| ResponseBehaviour.SingleBindingOutcome | janet-http/adapter-compiler/src/main/java/io/techery/janet/HttpHelpersGenerator.java:184-241 | a field carrying one response annotation holds that annotation's reference value after `onResponse` |
| ResponseBehaviour.StatusTextReadsBack | janet-http/adapter-compiler/src/main/java/io/techery/janet/HttpHelpersGenerator.java:235-236 | a String `@Status` field holds text that reads back, with `Integer.parseInt`, as the response status |
| ResponseBehaviour.ResponseHeaderLastWins | janet-http/adapter-compiler/src/main/java/io/techery/janet/HttpHelpersGenerator.java:214-224 | a `@ResponseHeader` field is made from a header map whose entry for its name is the last response header with that name |
| Boundaries.BareResponse | janet-http/adapter-compiler/src/main/java/io/techery/janet/HttpHelpersGenerator.java:167-182 | an action with no assigned response fields gets an `onResponse` that only returns the action, unchanged |
| HeaderMaps.HeaderMapKeys | janet-http/adapter-compiler/src/main/java/io/techery/janet/HttpHelpersGenerator.java:214-217 | the header map's keys are exactly the response's header names |
| HeaderMaps.HeaderMapLastWins | janet-http/adapter-compiler/src/main/java/io/techery/janet/HttpHelpersGenerator.java:215-216 | `put` in response order leaves, for each name, the value of the last header with that name |
| Decimal.NatToStringRoundTrip | janet-http/adapter-compiler/src/main/java/io/techery/janet/HttpHelpersGenerator.java:236 | the digits of a natural number denote that number |
| Decimal.IntToStringRoundTrip | janet-http/adapter-compiler/src/main/java/io/techery/janet/HttpHelpersGenerator.java:236 | `Integer.toString` of any status reads back as that status |

## Left out

- `generate` and `saveClass` (lines 58-66) are left out. They build the JavaPoet class and write the source file. Rendering and file output are I/O.
- The `SimpleService` sample is left out. It wires an action to a client and prints results, and is not part of the generator.
- `HttpActionClass` is not part of this model. Its `getAnnotatedElements` is taken to be an order-preserving filter of the action's fields. `getHelperName` and `getPackageName` only name the output. `getTypeElement` is the action class's type, kept as `ActionClass.typeName`; `getFieldAddress` compares each field's enclosing element with it.
- `TypeUtils` is not part of this model. Its type tests become the `JType` constructors: `isPrimitive`, `equalTypes` and `containsType`.
- `toString()`, `getBytes()`, `converter.fromBody` with its `TypeToken`, and the header map's `make` stay uninterpreted. They are foreign calls, kept as symbolic values.
- `HttpAction.Method` values are opaque strings; the model does not enumerate them. `HttpAction.Type` is enumerated by its three values, `Simple`, `FormUrlEncoded` and `Multipart`, as `ActionModel.RequestType`.
- Field hiding is not modelled. A subclass field with the same name as an inherited field would be a distinct Java field, but the model keys a field by its name.
- ResponseBehaviour.StatusTextReadsBack: the status is an unbounded integer, not a 32-bit `int`. `Integer.toString` is modelled for all integers.
- ResponseBehaviour.StepsValue: the `(T)`, `(long)` casts of the status are modelled as the number itself. Widening an `int` to `long` does not change it.
- RequestPlanner.RequestStepsFor: a `@Path`, `@Part`, `@RequestHeader` or `@Field` field of primitive type gets the same `if (action.f != null)` guard as any other. javac rejects that comparison, so the generated helper would not compile. The model does not reject such a field. It gives the guard its run-time meaning, and `RequestBehaviour.PathParamNaming` and `RequestBehaviour.FillRequestIncludes` describe calls that such a helper could never make.
- ResponseBehaviour.OnResponseCompletes: a run ends with `Some` even when a null body makes `response.getBody().toString()` throw. The model stores the failing expression `ToString(Null)` instead of stopping. `ResponseBehaviour.NullBodyDereferenced` shows that case, and `ResponseBehaviour.OnResponseNullSafe` shows it is the only one.
- Compile-time diagnostics are not modelled. The generator reports none for the bindings it plans.
