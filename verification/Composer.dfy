/** The chat composer as a sequential state machine. The component's four
    pieces of state form one record, and every handler is a pure function
    from the state before to the state after. Calls out of the component (the
    chat entry store, the generation pipeline, alerts, the abort function)
    are recorded as an ordered list of effects. Results of platform calls
    (permission, picker, rasterisation, the entry id) arrive as parameters.
 */
module Composer {
  import opened Text
  import opened Strokes
  import opened Attachments
  import Gestures

  /** `newMessage`, `images`, `showCanvas` and `paths`. */
  datatype State = State(message: string, images: seq<Attachment>, showCanvas: bool, paths: seq<Stroke>)

  /** The state on mount: empty text, no attachments, canvas hidden, no strokes. */
  const Initial: State := State("", [], false, [])

  /** A call the component makes to code outside it. */
  datatype Effect =
    | AddEntry(author: string, isUser: bool, text: string)
    | Generate(entryId: int)
    | Alert(title: string, body: string)
    | CallAbort

  /** A handler's outcome: the next state and the calls made, in order. */
  datatype Step = Step(next: State, effects: seq<Effect>)

  /** What the media-library bridge reports: permission refused, picker
      dismissed, or the picked uris together with one fresh id for each. */
  datatype PickerOutcome =
    | PermissionDenied
    | PickerCancelled
    | Picked(uris: seq<string>, ids: seq<string>)

  /** What `captureRef` reports: a file uri (with the fresh id `addImages`
      will give it) or a failure. */
  datatype Capture = Captured(uri: string, id: string) | CaptureFailed

  /** How the entry store settles one awaited `addEntry` call: resolved with
      the id it returns (which may be absent), or rejected. */
  datatype Reply = Resolved(id: Option<int>) | Rejected

  const PermissionAlert: Effect :=
    Alert("Permission required", "Permission to access media library is needed.")

  const SaveAlert: Effect := Alert("Error", "Failed to save drawing.")

  /** `name ?? ''` */
  function NameOr(name: Option<string>): string {
    match name
    case Some(n) => n
    case None => ""
  }

  /** JavaScript truthiness of the id `addEntry` returns: absent and zero
      are falsy. */
  predicate Truthy(id: Option<int>) {
    id.Some? && id.value != 0
  }

  // ---------------------------------------------------------------------------
  // Text box and canvas controls
  // ---------------------------------------------------------------------------

  /** onChangeText: the message becomes the typed text; nothing else changes. */
  function ChangeText(s: State, text: string): (r: State)
    ensures r.message == text
    ensures r.(message := s.message) == s
  {
    s.(message := text)
  }

  /** The brush button: the canvas becomes visible; nothing else changes. */
  function OpenCanvas(s: State): (r: State)
    ensures r.showCanvas
    ensures r.(showCanvas := s.showCanvas) == s
  {
    s.(showCanvas := true)
  }

  /** Clear: the session becomes empty; visibility, attachments and message
      are untouched. */
  function ClearCanvas(s: State): (r: State)
    ensures r.paths == []
    ensures r.(paths := s.paths) == s
  {
    s.(paths := [])
  }

  /** Cancel: only hides the canvas; the strokes stay in place. */
  function CancelCanvas(s: State): (r: State)
    ensures !r.showCanvas && r.paths == s.paths
    ensures r.(showCanvas := s.showCanvas) == s
  {
    s.(showCanvas := false)
  }

  // ---------------------------------------------------------------------------
  // Stroke recorder
  // ---------------------------------------------------------------------------

  /** onPanResponderGrant: the rendered path list changes exactly as the
      component's string updater changes it; nothing else changes. */
  function GrantStroke(s: State, p: Point): (r: State)
    ensures RenderPaths(r.paths) == GrantText(RenderPaths(s.paths), p)
    ensures r.(paths := s.paths) == s
  {
    RenderGrant(s.paths, p);
    s.(paths := Grant(s.paths, p))
  }

  /** onPanResponderMove: the rendered path list changes exactly as the
      component's string updater changes it, including the orphan
      "undefined L x y" entry on an empty session; nothing else changes. */
  function MoveStroke(s: State, p: Point): (r: State)
    ensures RenderPaths(r.paths) == MoveText(RenderPaths(s.paths), p)
    ensures r.(paths := s.paths) == s
  {
    RenderMove(s.paths, p);
    s.(paths := Move(s.paths, p))
  }

  // ---------------------------------------------------------------------------
  // Attachments
  // ---------------------------------------------------------------------------

  /** handleAttachImage, from the bridge's outcome: a refusal raises the
      permission alert and changes nothing, a dismissed picker changes
      nothing, and a selection appends one attachment per uri in order. */
  function AttachImage(s: State, outcome: PickerOutcome): (r: Step)
    requires outcome.Picked? ==> |outcome.ids| == |outcome.uris|
    ensures outcome.PermissionDenied? ==> r.next == s && r.effects == [PermissionAlert]
    ensures outcome.PickerCancelled? ==> r.next == s && r.effects == []
    ensures outcome.Picked? ==>
      && Uris(r.next.images) == Uris(s.images) + outcome.uris
      && r.next.images[..|s.images|] == s.images
      && r.next.(images := s.images) == s
      && r.effects == []
  {
    match outcome
    case PermissionDenied => Step(s, [PermissionAlert])
    case PickerCancelled => Step(s, [])
    case Picked(uris, ids) => Step(s.(images := AddImages(s.images, uris, ids)), [])
  }

  /** handleRemoveImage: drops every attachment with the id, keeps the rest
      in order; nothing else changes. */
  function RemoveAttachment(s: State, id: string): (r: State)
    ensures forall a :: a in r.images <==> a in s.images && a.id != id
    ensures IsSubsequence(r.images, s.images)
    ensures |r.images| == |s.images| - Occurrences(s.images, id)
    ensures r.(images := s.images) == s
  {
    RemoveKeepsOthers(s.images, id);
    s.(images := RemoveImage(s.images, id))
  }

  /** saveDrawing: on success one attachment with the captured uri is
      appended, the session is emptied and the canvas hidden; on failure the
      error alert is raised and the state is unchanged. */
  function SaveDrawing(s: State, capture: Capture): (r: Step)
    ensures capture.Captured? ==>
      && |r.next.images| == |s.images| + 1
      && r.next.images[..|s.images|] == s.images
      && r.next.images[|s.images|] == Attachment(capture.id, capture.uri)
      && r.next.paths == []
      && !r.next.showCanvas
      && r.next.message == s.message
      && r.effects == []
    ensures capture.CaptureFailed? ==> r.next == s && r.effects == [SaveAlert]
  {
    match capture
    case Captured(uri, id) =>
      var images := AddImages(s.images, [uri], [id]);
      Step(State(s.message, images, false, []), [])
    case CaptureFailed => Step(s, [SaveAlert])
  }

  // ---------------------------------------------------------------------------
  // Send and abort
  // ---------------------------------------------------------------------------

  /** `newMessage.trim() !== ''`: the test that decides whether a send
      posts the message as a user entry. */
  predicate SendsUserEntry(message: string)
    ensures SendsUserEntry(message) <==> !IsBlank(message)
  {
    Trim(message) != ""
  }

  /** The send attempts a user entry (the message is not blank) and the
      store rejects it; the handler stops at that call. */
  predicate UserEntryFails(message: string, userReply: Reply) {
    !IsBlank(message) && userReply.Rejected?
  }

  /** Both awaited calls of a send resolve, so the handler runs to its end. */
  predicate Completes(message: string, userReply: Reply, placeholderReply: Reply) {
    !UserEntryFails(message, userReply) && placeholderReply.Resolved?
  }

  /** The calls handleSend makes, in order: a user entry only for a
      non-blank message, then the placeholder unless the user entry was
      rejected, then Generate when both calls resolved and the swipe id the
      placeholder resolved with is truthy. */
  function SendCalls(message: string, userName: Option<string>, charName: Option<string>,
                     userReply: Reply, placeholderReply: Reply): (calls: seq<Effect>)
    ensures |calls|
         == (if IsBlank(message) then 0 else 1)
          + (if UserEntryFails(message, userReply) then 0 else 1)
          + (if Completes(message, userReply, placeholderReply) && Truthy(placeholderReply.id) then 1 else 0)
    ensures !IsBlank(message) ==> calls[0] == AddEntry(NameOr(userName), true, message)
    ensures IsBlank(message) ==> calls[0] == AddEntry(NameOr(charName), false, "")
    ensures !IsBlank(message) && userReply.Resolved? ==> calls[1] == AddEntry(NameOr(charName), false, "")
    ensures calls[|calls| - 1].Generate?
        <==> Completes(message, userReply, placeholderReply) && Truthy(placeholderReply.id)
    ensures Completes(message, userReply, placeholderReply) && Truthy(placeholderReply.id) ==>
      calls[|calls| - 1] == Generate(placeholderReply.id.value)
  {
    var head := if SendsUserEntry(message) then [AddEntry(NameOr(userName), true, message)] else [];
    if SendsUserEntry(message) && userReply.Rejected? then head
    else head + [AddEntry(NameOr(charName), false, "")] + GenerateCall(placeholderReply)
  }

  /** `if (swipeId) generateResponse(swipeId)`, once the placeholder resolved. */
  function GenerateCall(placeholderReply: Reply): (calls: seq<Effect>)
    ensures |calls| == if placeholderReply.Resolved? && Truthy(placeholderReply.id) then 1 else 0
    ensures |calls| == 1 ==> calls[0] == Generate(placeholderReply.id.value)
  {
    match placeholderReply
    case Resolved(swipeId) => if Truthy(swipeId) then [Generate(swipeId.value)] else []
    case Rejected => []
  }

  /** handleSend. `userReply` and `placeholderReply` are how the entry store
      settles the user entry and the placeholder entry. A rejected call ends
      the handler: nothing after it runs, so the message is kept. Only a
      send that runs to its end clears the message; no send reads or changes
      anything else. */
  function Send(s: State, userName: Option<string>, charName: Option<string>,
                userReply: Reply, placeholderReply: Reply): (r: Step)
    ensures r.next.(message := s.message) == s
    ensures r.next.message == if Completes(s.message, userReply, placeholderReply) then "" else s.message
    ensures r.effects == SendCalls(s.message, userName, charName, userReply, placeholderReply)
  {
    var calls := SendCalls(s.message, userName, charName, userReply, placeholderReply);
    if SendsUserEntry(s.message) && userReply.Rejected? then Step(s, calls)
    else if placeholderReply.Rejected? then Step(s, calls)
    else Step(s.(message := ""), calls)
  }

  /** abortResponse: calls the abort function when there is one; the state
      is never changed. */
  function Abort(s: State, hasAbortFunction: bool): (r: Step)
    ensures r.next == s
    ensures r.effects == [] <==> !hasAbortFunction
    ensures hasAbortFunction ==> r.effects == [CallAbort]
  {
    Step(s, if hasAbortFunction then [CallAbort] else [])
  }

  // ---------------------------------------------------------------------------
  // Events and traces
  // ---------------------------------------------------------------------------

  /** A user or system event reaching the component. */
  datatype Event =
    | Typed(text: string)
    | PressAttach(outcome: PickerOutcome)
    | PressRemove(id: string)
    | PressDraw
    | Touch(g: Gestures.Gesture)
    | PressClear
    | PressSave(capture: Capture)
    | PressCancel
    | PressSend(userName: Option<string>, charName: Option<string>, userReply: Reply, placeholderReply: Reply)
    | PressStop(hasAbortFunction: bool)

  predicate WellFormed(e: Event) {
    e.PressAttach? && e.outcome.Picked? ==> |e.outcome.ids| == |e.outcome.uris|
  }

  /** Events only the open canvas can receive: the drawing surface and its
      three buttons are rendered only while `showCanvas` holds. */
  predicate CanvasOnly(e: Event) {
    e.Touch? || e.PressClear? || e.PressSave? || e.PressCancel?
  }

  /** Routes an event to its handler. Canvas events arriving while the
      canvas is hidden have no view to land on and change nothing. */
  function Dispatch(s: State, e: Event): (r: Step)
    requires WellFormed(e)
    ensures CanvasOnly(e) && !s.showCanvas ==> r == Step(s, [])
    ensures !(e.PressAttach? || e.PressRemove? || e.PressSave?) ==> r.next.images == s.images
  {
    if CanvasOnly(e) && !s.showCanvas then Step(s, [])
    else
      match e
      case Typed(text) => Step(ChangeText(s, text), [])
      case PressAttach(outcome) => AttachImage(s, outcome)
      case PressRemove(id) => Step(RemoveAttachment(s, id), [])
      case PressDraw => Step(OpenCanvas(s), [])
      case Touch(g) =>
        (match g
         case Began(p) => Step(GrantStroke(s, p), [])
         case Moved(p) => Step(MoveStroke(s, p), []))
      case PressClear => Step(ClearCanvas(s), [])
      case PressSave(capture) => SaveDrawing(s, capture)
      case PressCancel => Step(CancelCanvas(s), [])
      case PressSend(user, character, userReply, placeholderReply) => Send(s, user, character, userReply, placeholderReply)
      case PressStop(has) => Abort(s, has)
  }

  predicate AllWellFormed(t: seq<Event>) {
    forall i :: 0 <= i < |t| ==> WellFormed(t[i])
  }

  /** The state after every event of `t`, with all calls made along the way. */
  function Run(s: State, t: seq<Event>): Step
    requires AllWellFormed(t)
    decreases |t|
  {
    if |t| == 0 then Step(s, [])
    else
      var first := Dispatch(s, t[0]);
      var rest := Run(first.next, t[1..]);
      Step(rest.next, first.effects + rest.effects)
  }

  // ---------------------------------------------------------------------------
  // Trace properties
  // ---------------------------------------------------------------------------

  /** Cancel then reopen shows the same strokes: cancelling does not discard
      the drawing session. */
  lemma CancelKeepsSession(s: State)
    ensures OpenCanvas(CancelCanvas(s)).paths == s.paths
    ensures OpenCanvas(CancelCanvas(s)) == s.(showCanvas := true)
  {
  }

  predicate TouchesAttachments(e: Event) {
    e.PressAttach? || e.PressRemove? || e.PressSave?
  }

  /** Only the picker, the remove buttons and a save change the attachment
      list; in particular no number of sends reads or clears it. */
  lemma {:induction false} ImagesUntouched(s: State, t: seq<Event>)
    requires AllWellFormed(t)
    requires forall i :: 0 <= i < |t| ==> !TouchesAttachments(t[i])
    ensures Run(s, t).next.images == s.images
    decreases |t|
  {
    if |t| > 0 {
      ImagesUntouched(Dispatch(s, t[0]).next, t[1..]);
    }
  }

  /** The touches of a gesture trace, in order. */
  function Touches(gs: seq<Gestures.Gesture>): (t: seq<Event>)
    ensures |t| == |gs|
    ensures AllWellFormed(t)
  {
    if |gs| == 0 then [] else [Touch(gs[0])] + Touches(gs[1..])
  }

  /** On the open canvas, a run of touches records the strokes exactly as
      the stroke recorder alone would, calls nothing, and changes nothing
      else. */
  lemma {:induction false} TouchesRecord(s: State, gs: seq<Gestures.Gesture>)
    requires s.showCanvas
    ensures Run(s, Touches(gs)) == Step(s.(paths := Gestures.Record(s.paths, gs)), [])
    decreases |gs|
  {
    if |gs| > 0 {
      var t := Touches(gs);
      assert t[1..] == Touches(gs[1..]);
      var next := Dispatch(s, t[0]).next;
      assert next == s.(paths := Gestures.Apply(s.paths, gs[0]));
      TouchesRecord(next, gs[1..]);
    }
  }

  /** From mount, opening the canvas and drawing yields the reference
      session: one stroke per grant, each with the points of the moves that
      followed it. */
  lemma DrawFromMount(gs: seq<Gestures.Gesture>)
    ensures Run(Initial, [PressDraw] + Touches(gs)).next.paths == Gestures.Group(gs)
  {
    var t := [PressDraw] + Touches(gs);
    assert t[1..] == Touches(gs);
    TouchesRecord(OpenCanvas(Initial), gs);
    Gestures.RecordGroup(gs);
  }

  function Sends(t: seq<Event>): nat {
    if |t| == 0 then 0 else (if t[0].PressSend? then 1 else 0) + Sends(t[1..])
  }

  /** How many placeholder entries (non-user entries) the calls create. */
  function Placeholders(effects: seq<Effect>): nat {
    if |effects| == 0 then 0
    else (if effects[0].AddEntry? && !effects[0].isUser then 1 else 0) + Placeholders(effects[1..])
  }

  lemma {:induction false} PlaceholdersAppend(a: seq<Effect>, b: seq<Effect>)
    ensures Placeholders(a + b) == Placeholders(a) + Placeholders(b)
  {
    if |a| == 0 {
      assert a + b == b;
    } else {
      assert (a + b)[1..] == a[1..] + b;
      PlaceholdersAppend(a[1..], b);
    }
  }

  /** A send requests one placeholder, unless its user entry is rejected
      first. */
  lemma SendPlaceholders(s: State, userName: Option<string>, charName: Option<string>,
                         userReply: Reply, placeholderReply: Reply)
    ensures Placeholders(Send(s, userName, charName, userReply, placeholderReply).effects)
         == if UserEntryFails(s.message, userReply) then 0 else 1
  {
    CallsPlaceholders(s.message, userName, charName, userReply, placeholderReply);
  }

  lemma CallsPlaceholders(message: string, userName: Option<string>, charName: Option<string>,
                          userReply: Reply, placeholderReply: Reply)
    ensures Placeholders(SendCalls(message, userName, charName, userReply, placeholderReply))
         == if UserEntryFails(message, userReply) then 0 else 1
  {
    var head: seq<Effect> := if SendsUserEntry(message) then [AddEntry(NameOr(userName), true, message)] else [];
    if UserEntryFails(message, userReply) {
      PlaceholdersSingle(head[0]);
    } else {
      PlaceholdersAround(head, AddEntry(NameOr(charName), false, ""), GenerateCall(placeholderReply));
    }
  }

  /** One placeholder between calls that are no placeholders. */
  lemma PlaceholdersAround(head: seq<Effect>, p: Effect, tail: seq<Effect>)
    requires |head| <= 1 && |tail| <= 1
    requires forall x :: x in head + tail ==> !(x.AddEntry? && !x.isUser)
    requires p.AddEntry? && !p.isUser
    ensures Placeholders(head + [p] + tail) == 1
  {
    PlaceholdersAppend(head + [p], tail);
    PlaceholdersAppend(head, [p]);
    PlaceholdersSingle(p);
    if |head| == 1 {
      assert head == [head[0]];
      PlaceholdersSingle(head[0]);
    }
    if |tail| == 1 {
      assert tail == [tail[0]];
      PlaceholdersSingle(tail[0]);
    }
  }

  lemma PlaceholdersSingle(x: Effect)
    ensures Placeholders([x]) == if x.AddEntry? && !x.isUser then 1 else 0
  {
    assert [x][1..] == [];
  }

  /** A send whose user entry is rejected before any placeholder. */
  predicate UserRejected(s: State, e: Event) {
    e.PressSend? && UserEntryFails(s.message, e.userReply)
  }

  /** Every handler but send creates no placeholder; send creates exactly
      one unless its user entry is rejected. */
  lemma DispatchPlaceholders(s: State, e: Event)
    requires WellFormed(e)
    ensures Placeholders(Dispatch(s, e).effects) == if e.PressSend? && !UserRejected(s, e) then 1 else 0
  {
    var r := Dispatch(s, e);
    if e.PressSend? {
      SendPlaceholders(s, e.userName, e.charName, e.userReply, e.placeholderReply);
    } else if e.PressAttach? && e.outcome.PermissionDenied? && !(CanvasOnly(e) && !s.showCanvas) {
      assert r.effects == [PermissionAlert];
    } else if e.PressSave? && e.capture.CaptureFailed? && s.showCanvas {
      assert r.effects == [SaveAlert];
    }
  }

  /** Sends whose user entry the store may reject: those that carry a
      rejecting user reply. */
  predicate MayRejectUser(e: Event) {
    e.PressSend? && e.userReply.Rejected?
  }

  /** Over any trace, every placeholder entry belongs to a send, and when the
      store accepts every user entry each send creates exactly one. */
  lemma {:induction false} PlaceholdersPerSend(s: State, t: seq<Event>)
    requires AllWellFormed(t)
    ensures Placeholders(Run(s, t).effects) <= Sends(t)
    ensures (forall i :: 0 <= i < |t| ==> !MayRejectUser(t[i])) ==> Placeholders(Run(s, t).effects) == Sends(t)
    decreases |t|
  {
    if |t| > 0 {
      var first := Dispatch(s, t[0]);
      DispatchPlaceholders(s, t[0]);
      PlaceholdersPerSend(first.next, t[1..]);
      PlaceholdersAppend(first.effects, Run(first.next, t[1..]).effects);
      if forall i :: 0 <= i < |t| ==> !MayRejectUser(t[i]) {
        assert forall i :: 0 <= i < |t[1..]| ==> !MayRejectUser(t[1..][i]) by {
          forall i | 0 <= i < |t[1..]| ensures !MayRejectUser(t[1..][i]) {
            assert t[1..][i] == t[i + 1];
          }
        }
        assert !MayRejectUser(t[0]);
      }
    }
  }
}
