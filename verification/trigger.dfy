/**
 * `pamaTriggerHandler`: the CDS trigger contract (system actions, messages, outbound
 * context) and the two registrations built from it.
 */
module TriggerHandler {
  import opened Wrappers
  import opened Fhir
  import opened RatingExtractor
  import opened Dispatch

  // ---------------------------------------------------------------- inbound events

  /** A host system action `{type, resource}`. */
  datatype SystemAction = SystemAction(actionType: string, resource: Option<Resource>)

  /** An inbound message `{messageType, payload}`; the payload is read as an update record. */
  datatype Message = Message(messageType: string, payload: Option<Update>)

  const UpdateType: string := "update"
  const ScratchpadUpdate: string := "scratchpad.update"

  /** The `filter` on `type === 'update'`; the action object itself is what extraction reads. */
  function SystemActionUpdates(actions: seq<SystemAction>): (r: seq<Update>)
    ensures |r| <= |actions|
    ensures forall u :: u in r ==> exists a :: a in actions && a.actionType == UpdateType && u == Update(a.resource)
  {
    if actions == [] then []
    else
      assert forall a :: a in actions[1..] ==> a in actions;
      if actions[0].actionType == UpdateType then [Update(actions[0].resource)] + SystemActionUpdates(actions[1..])
      else SystemActionUpdates(actions[1..])
  }

  /** `[data].filter(messageType === 'scratchpad.update').map(m => m.payload || {})` */
  function MessageUpdates(m: Message): (r: seq<Update>)
    ensures |r| <= 1
    ensures |r| == 1 <==> m.messageType == ScratchpadUpdate
    ensures |r| == 1 ==> r[0].resource == (if m.payload.Some? then m.payload.value.resource else None)
  {
    if m.messageType == ScratchpadUpdate then [m.payload.GetOr(Update(None))] else []
  }

  /** What `onSystemActions` dispatches for a batch. */
  function SystemActionsDispatch(actions: seq<SystemAction>): Result<seq<PamaAction>, Fault> {
    Dispatched(SystemActionUpdates(actions))
  }

  /** What `onMessage` dispatches for one message. */
  function MessageDispatch(m: Message): (r: Result<seq<PamaAction>, Fault>)
    ensures m.messageType != ScratchpadUpdate ==> r == Ok([])
    ensures m.messageType == ScratchpadUpdate && (m.payload.None? || m.payload.value.resource.None?)
            ==> r == Err(MissingResource)
    ensures m.messageType == ScratchpadUpdate && m.payload.Some? && m.payload.value.resource.Some?
            ==> r == Dispatched([m.payload.value])
  {
    Dispatched(MessageUpdates(m))
  }

  /** `onSystemActions(systemActions, state, dispatch)`; the unused `state` is dropped. */
  method OnSystemActions(d: Dispatcher, actions: seq<SystemAction>) returns (outcome: Outcome<Fault>)
    modifies d
    ensures outcome == Completion(SystemActionsDispatch(actions))
    ensures d.emitted == old(d.emitted) + Emitted(SystemActionsDispatch(actions))
  {
    var updates := SystemActionUpdates(actions);
    outcome := DispatchUpdates(d, updates);
  }

  /** `onMessage({data, dispatch})` */
  method OnMessage(d: Dispatcher, data: Message) returns (outcome: Outcome<Fault>)
    modifies d
    ensures outcome == Completion(MessageDispatch(data))
    ensures d.emitted == old(d.emitted) + Emitted(MessageDispatch(data))
  {
    var updates := MessageUpdates(data);
    outcome := DispatchUpdates(d, updates);
  }

  lemma {:induction false} SystemActionUpdatesAppend(a: seq<SystemAction>, b: seq<SystemAction>)
    ensures SystemActionUpdates(a + b) == SystemActionUpdates(a) + SystemActionUpdates(b)
  {
    if a == [] {
      assert a + b == b;
    } else {
      assert (a + b)[0] == a[0];
      assert (a + b)[1..] == a[1..] + b;
      SystemActionUpdatesAppend(a[1..], b);
    }
  }

  /** A system action whose type is not `update`, wherever it stands in the batch, never changes what is dispatched. */
  lemma NonUpdateActionIgnored(before: seq<SystemAction>, other: SystemAction, after: seq<SystemAction>)
    requires other.actionType != UpdateType
    ensures SystemActionsDispatch(before + [other] + after) == SystemActionsDispatch(before + after)
  {
    SystemActionUpdatesAppend(before + [other], after);
    SystemActionUpdatesAppend(before, [other]);
    SystemActionUpdatesAppend(before, after);
    assert SystemActionUpdates([other]) == SystemActionUpdates([]) == [];
    assert SystemActionUpdates(before + [other] + after) == SystemActionUpdates(before + after);
  }

  /** A batch made only of `update` actions is handed to extraction whole and in order. */
  lemma {:induction false} UpdateActionsKept(actions: seq<SystemAction>)
    requires forall i :: 0 <= i < |actions| ==> actions[i].actionType == UpdateType
    ensures |SystemActionUpdates(actions)| == |actions|
    ensures forall i :: 0 <= i < |actions| ==> SystemActionUpdates(actions)[i] == Update(actions[i].resource)
  {
    if actions != [] {
      UpdateActionsKept(actions[1..]);
    }
  }

  // ---------------------------------------------------------------- outbound context

  datatype ServiceRequestDraft = ServiceRequestDraft(studyCoding: Coding, reasonCodings: seq<Coding>)
  datatype PamaState = PamaState(serviceRequest: ServiceRequestDraft)
  datatype Patient = Patient(id: string)
  datatype PatientState = PatientState(currentPatient: Patient)
  /** The parts of the store that `generateContext` reads: `state.pama` and `state.patientState`. */
  datatype State = State(pama: PamaState, patientState: PatientState)

  datatype ConceptWithText = ConceptWithText(coding: seq<Coding>, text: string)
  datatype Reference = Reference(reference: string)
  datatype ServiceRequest = ServiceRequest(
    resourceType: string, id: string, status: string, intent: string,
    code: ConceptWithText, subject: Reference, reasonCode: seq<ConceptWithText>)
  datatype BundleEntry = BundleEntry(resource: ServiceRequest)
  datatype Bundle = Bundle(resourceType: string, entry: seq<BundleEntry>)
  datatype Context = Context(selections: seq<string>, draftOrders: Bundle)

  const RequestId: string := "example-request-id"
  const PatientPrefix: string := "Patient/"

  /** A coding wrapped with its display as `text`. */
  function WithText(c: Coding): ConceptWithText {
    ConceptWithText([c], c.display)
  }

  /** `generateContext(state)`: a Bundle holding one draft ServiceRequest for the current order. */
  function GenerateContext(state: State): (c: Context)
    ensures |c.draftOrders.entry| == 1
    ensures c.draftOrders.resourceType == "Bundle"
    ensures var sr := c.draftOrders.entry[0].resource;
            && c.selections == ["ServiceRequest/" + sr.id]
            && sr.resourceType == "ServiceRequest"
            && sr.status == "draft" && sr.intent == "plan"
            && sr.code.coding == [state.pama.serviceRequest.studyCoding]
            && sr.code.text == state.pama.serviceRequest.studyCoding.display
            && sr.subject.reference == PatientPrefix + state.patientState.currentPatient.id
            && |sr.reasonCode| == |state.pama.serviceRequest.reasonCodings|
            && forall i :: 0 <= i < |sr.reasonCode| ==>
                 sr.reasonCode[i].coding == [state.pama.serviceRequest.reasonCodings[i]]
                 && sr.reasonCode[i].text == state.pama.serviceRequest.reasonCodings[i].display
  {
    var draft := state.pama.serviceRequest;
    Context(
      ["ServiceRequest/" + RequestId],
      Bundle("Bundle", [
        BundleEntry(ServiceRequest(
          "ServiceRequest", RequestId, "draft", "plan",
          WithText(draft.studyCoding),
          Reference(PatientPrefix + state.patientState.currentPatient.id),
          seq(|draft.reasonCodings|, i requires 0 <= i < |draft.reasonCodings| => WithText(draft.reasonCodings[i]))))]))
  }

  /**
   * How a host reads the draft order back out of a context: the single study coding, the
   * reason codings and the patient id; None when the context does not have that shape.
   */
  function ReadDraft(c: Context): Option<(ServiceRequestDraft, string)> {
    if |c.draftOrders.entry| != 1 then None
    else
      var sr := c.draftOrders.entry[0].resource;
      if |sr.code.coding| != 1
         || (exists i :: 0 <= i < |sr.reasonCode| && |sr.reasonCode[i].coding| != 1)
         || !(PatientPrefix <= sr.subject.reference)
      then None
      else
        Some((ServiceRequestDraft(
                sr.code.coding[0],
                seq(|sr.reasonCode|, i requires 0 <= i < |sr.reasonCode| && |sr.reasonCode[i].coding| == 1 => sr.reasonCode[i].coding[0])),
              sr.subject.reference[|PatientPrefix|..]))
  }

  /** The context carries the whole draft order and patient: reading it back gives them unchanged. */
  lemma ContextRoundTrip(state: State)
    ensures ReadDraft(GenerateContext(state)) == Some((state.pama.serviceRequest, state.patientState.currentPatient.id))
  {
    var c := GenerateContext(state);
    var sr := c.draftOrders.entry[0].resource;
    var reasons := state.pama.serviceRequest.reasonCodings;
    assert PatientPrefix <= sr.subject.reference;
    assert sr.subject.reference[|PatientPrefix|..] == state.patientState.currentPatient.id;
    var back := seq(|sr.reasonCode|, i requires 0 <= i < |sr.reasonCode| && |sr.reasonCode[i].coding| == 1 => sr.reasonCode[i].coding[0]);
    assert back == reasons;
  }

  // ---------------------------------------------------------------- registrations

  /** `needExplicitTrigger`: `false`, or the name of the action the host must fire first. */
  datatype TriggerMode = Automatic | ExplicitTrigger(actionType: string)

  /** A handler value: its trigger mode and what each of its three operations does. */
  datatype Handler = Handler(
    needExplicitTrigger: TriggerMode,
    onSystemActions: seq<SystemAction> -> Result<seq<PamaAction>, Fault>,
    onMessage: Message -> Result<seq<PamaAction>, Fault>,
    generateContext: State -> Context)

  const OrderSelect: string := "pama/order-select"
  const OrderSign: string := "pama/order-sign"

  /** `pamaTriggerHandler` */
  function PamaTriggerHandler(): (h: Handler)
    ensures h.needExplicitTrigger == Automatic
    ensures h.onSystemActions == SystemActionsDispatch
    ensures h.onMessage == MessageDispatch
    ensures h.generateContext == GenerateContext
  {
    Handler(Automatic, SystemActionsDispatch, MessageDispatch, GenerateContext)
  }

  /** `{...pamaTriggerHandler, needExplicitTrigger: 'TRIGGER_ORDER_SIGN'}` */
  function OrderSignHandler(): (h: Handler)
    ensures h.needExplicitTrigger == ExplicitTrigger("TRIGGER_ORDER_SIGN") != PamaTriggerHandler().needExplicitTrigger
    ensures h.onSystemActions == PamaTriggerHandler().onSystemActions
    ensures h.onMessage == PamaTriggerHandler().onMessage
    ensures h.generateContext == PamaTriggerHandler().generateContext
  {
    PamaTriggerHandler().(needExplicitTrigger := ExplicitTrigger("TRIGGER_ORDER_SIGN"))
  }

  /** The two `registerTriggerHandler` calls, as the registry they populate. */
  function Registrations(): (r: map<string, Handler>)
    ensures r.Keys == {OrderSelect, OrderSign}
    ensures r[OrderSign] == r[OrderSelect].(needExplicitTrigger := ExplicitTrigger("TRIGGER_ORDER_SIGN"))
    ensures r[OrderSelect].needExplicitTrigger != r[OrderSign].needExplicitTrigger
  {
    map[OrderSelect := PamaTriggerHandler(), OrderSign := OrderSignHandler()]
  }
}
