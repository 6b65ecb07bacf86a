/** Actions that carry no annotation the generator consumes. */
module Boundaries {
  import opened Wrappers
  import opened ActionModel
  import opened Runtime
  import opened Plan
  import opened RequestPlanner
  import opened ResponsePlanner
  import opened Interpreter
  import opened RequestBehaviour
  import opened ResponseBehaviour

  lemma NoElements(fields: seq<AnnotatedField>, k: MarkerKind)
    requires forall e :: e in fields ==> KindOf(e.marker) != k
    ensures AnnotatedElements(fields, k) == []
  {
  }

  lemma {:induction false} NoneSent(a: ActionClass, ks: seq<MarkerKind>, inst: Instance)
    requires forall e :: e in a.fields ==> KindOf(e.marker) !in ks
    ensures SentGroups(a, ks, inst) == []
  {
    if ks != [] {
      NoElements(a.fields, ks[0]);
      assert FirstOnly([]) == [];
      assert Consumed(a, ks[0]) == [];
      NoneSent(a, ks[1..], inst);
    }
  }

  /** With no request-side annotation, fillRequest only sets the method,
      the request type and the path. */
  lemma BareRequest(a: ActionClass, inst: Instance)
    requires forall e :: e in a.fields ==> !IsRequestKind(KindOf(e.marker))
    ensures RunRequest(FillRequest(a), inst) ==
      [CallSetMethod(a.httpMethod), CallSetRequestType(a.requestType), CallSetPath(a.path)]
  {
    NoneSent(a, RequestGroups, inst);
    FillRequestMeaning(a, inst);
  }

  lemma SilentStatusAndBodies(a: ActionClass)
    requires forall e :: e in a.fields ==> !Emits(e)
    ensures StatusAndBodies(a) == []
  {
    LowerResponseNone(a, AnnotatedElements(a.fields, StatusKind));
    LowerResponseNone(a, AnnotatedElements(a.fields, ResponseKind));
  }

  lemma SilentHeaders(a: ActionClass)
    requires forall e :: e in a.fields ==> !Emits(e)
    ensures HeaderExtraction(a) == []
  {
    NoElements(a.fields, ResponseHeaderKind);
  }

  /** With no response-side annotation that yields a statement, onResponse
      is just `return action`, and the action comes back unchanged. */
  lemma BareResponse(a: ActionClass, inst: Instance, resp: HttpResponse)
    requires forall e :: e in a.fields ==> !Emits(e)
    ensures OnResponse(a) == [ReturnAction]
    ensures RunOnResponse(OnResponse(a), inst, resp) == Some(inst)
  {
    SilentStatusAndBodies(a);
    SilentHeaders(a);
    assert OnResponse(a) == [] + [] + [ReturnAction];
  }
}
