# Chat composer model

This project models the chat composer of a React Native chat client
(`app/screens/ChatMenu/ChatInput.tsx`). The composer has a text box, a list
of pending image attachments, a freehand drawing canvas that is saved as an
image attachment, and send/stop controls. Underneath the layout, every
handler is a pure update of four pieces of state:

- the message text,
- the attachment list,
- the canvas-visible flag,
- the list of stroke path strings.

The model is a sequential state machine over the record
`State(message, images, showCanvas, paths)`. Each handler is one pure
function. Calls out of the component are returned as an ordered effect
list: `AddEntry(author, isUser, text)`, `Generate(id)`, `Alert(title, body)`
and `CallAbort`. Results of platform calls are parameters:

- the permission and picker outcome,
- the capture outcome,
- how the entry store settles each awaited entry call: resolved with an
  id, or rejected,
- the fresh attachment ids.

Modules:

- `Text`: the whitespace trim behind the blank-message test (the
  whitespace set of `String.prototype.trim`), integer
  formatting as a template literal writes it, and the inverse readers.
- `Strokes`: a stroke as structured data, `Stroke(start, lines)`. The start
  is a `MoveTo(point)`, or `Undefined` for a move that arrives with no stroke
  to extend. `lines` holds the points of the linetos. `RenderStroke` gives
  the exact `M x y` / ` L x y` string the component stores. `GrantText` and
  `MoveText` are the component's string updaters, written as the source
  writes them. Lemmas prove that the structured handlers agree with them
  through rendering, and that a rendered path parses back to its stroke.
- `Gestures`: whole grant/move traces. `Record` folds the handlers over a
  trace. `Group` is an independent description that cuts the trace at
  each grant. They are proved equal, with stroke and lineto counts.
- `Attachments`: `addImages` and `handleRemoveImage` on the attachment list,
  with order, membership, idempotence and id-uniqueness lemmas.
- `Composer`: the state record, one function per handler, an event
  dispatcher, `Run` over event traces, and trace lemmas.

A move with no prior stroke is reproduced, not excluded. In the source,
`prev[prev.length - 1]` is `undefined` on an empty list. String
concatenation turns it into `"undefined L x y"`, and `slice(0, -1)` gives
`[]`. The model's `Move` returns the orphan stroke `Stroke(Undefined, [p])`,
which renders to that string. `Strokes.RenderMove` proves the match.

Some behaviours of the code that a reader might not expect are modelled as
written:

- Cancel only hides the canvas. The strokes are kept and reappear when the
  canvas is reopened (`Composer.CancelKeepsSession`).
- Remove-by-id deletes every attachment carrying the id, however many there
  are. With unique ids that is exactly one (`Attachments.RemoveUniqueTakesOne`).
- Send never reads or clears the attachment list
  (`Composer.ImagesUntouched`).
- Send awaits its entry calls without catching a rejection. A rejected user
  entry ends the handler before the placeholder is requested; a rejected
  placeholder ends it before the message is cleared and before generation
  starts. Either way the message is kept.

## Model

| member | source | states |
|---|---|---|
| `Text.Trim` | app/screens/ChatMenu/ChatInput.tsx:227 | the trimmed message is empty exactly when every character is whitespace; a non-empty result neither starts nor ends with whitespace |
| `Text.TrimKeepsMiddle` | app/screens/ChatMenu/ChatInput.tsx:227 | the trimmed message is the slice of the message between its leading whitespace and a tail that is all whitespace |
| `Text.ParseShowInt` | app/screens/ChatMenu/ChatInput.tsx:176 | the decimal text a template literal writes for a coordinate reads back to the same integer |
| `Strokes.Grant` | app/screens/ChatMenu/ChatInput.tsx:173-177 | grant appends one stroke holding only a moveto at the pointer; the count grows by one and every earlier stroke is unchanged |
| `Strokes.Move` | app/screens/ChatMenu/ChatInput.tsx:178-184 | on a non-empty session the length is kept, all strokes but the last are untouched, and the last gains one lineto at the pointer; on an empty session the result is the single orphan stroke |
| `Strokes.RenderGrant` | app/screens/ChatMenu/ChatInput.tsx:176 | the structured grant, rendered, equals the component's string update that appends `M x y` |
| `Strokes.RenderMove` | app/screens/ChatMenu/ChatInput.tsx:181-184 | the structured move, rendered, equals the component's string update that replaces the last entry by itself plus ` L x y`, including `"undefined L x y"` on an empty list |
| `Strokes.ParseRender` | app/screens/ChatMenu/ChatInput.tsx:176-184 | the path string stored for a stroke loses nothing: the model's own reader, the inverse of rendering, gives back exactly that stroke |
| `Strokes.RenderInjective` | app/screens/ChatMenu/ChatInput.tsx:176-184 | two strokes render to the same path string if and only if they are equal |
| `Gestures.RecordGroup` | app/screens/ChatMenu/ChatInput.tsx:170-187 | on an empty canvas, any grant/move trace yields one stroke per grant, starting at the grant's point, with one lineto per following move up to the next grant; moves before the first grant form one orphan stroke |
| `Gestures.RecordChunks` | app/screens/ChatMenu/ChatInput.tsx:173-184 | a trace that starts with a grant appends exactly the per-grant strokes after whatever the session held |
| `Gestures.RecordCounts` | app/screens/ChatMenu/ChatInput.tsx:173-184 | when the session is non-empty or the trace starts with a grant, the stroke count grows by the number of grants and the lineto total grows by the number of moves |
| `Gestures.OrphanCount` | app/screens/ChatMenu/ChatInput.tsx:178-184 | a trace that opens with a move on an empty canvas ends with one stroke more than it has grants |
| `Attachments.AddImages` | app/screens/ChatMenu/ChatInput.tsx:139-146 | existing entries stay unchanged and in place; one entry per input uri follows, in input order, with its supplied id; the uri list grows by exactly the input uris |
| `Attachments.RemoveImage` | app/screens/ChatMenu/ChatInput.tsx:166-168 | an entry survives exactly when it was present and carries another id, and the length drops by the number of entries carrying the id |
| `Attachments.RemoveKeepsOthers` | app/screens/ChatMenu/ChatInput.tsx:166-168 | no entry with the id is left, every other entry keeps its multiplicity, and the survivors keep their relative order |
| `Attachments.RemoveIdempotent` | app/screens/ChatMenu/ChatInput.tsx:166-168 | removing an id twice equals removing it once |
| `Attachments.RemoveUniqueTakesOne` | app/screens/ChatMenu/ChatInput.tsx:166-168 | with unique ids, removing a present id takes exactly one entry off |
| `Attachments.AddKeepsUnique` | app/screens/ChatMenu/ChatInput.tsx:139-144 | appending entries whose ids are distinct and unused keeps ids unique |
| `Attachments.RemoveKeepsUnique` | app/screens/ChatMenu/ChatInput.tsx:166-168 | removal keeps ids unique |
| `Composer.ChangeText` | app/screens/ChatMenu/ChatInput.tsx:271-272 | typing replaces the message and changes nothing else |
| `Composer.OpenCanvas` | app/screens/ChatMenu/ChatInput.tsx:253 | the brush button makes the canvas visible and changes nothing else |
| `Composer.ClearCanvas` | app/screens/ChatMenu/ChatInput.tsx:319 | Clear empties the session and leaves visibility, attachments and message unchanged |
| `Composer.CancelCanvas` | app/screens/ChatMenu/ChatInput.tsx:325 | Cancel hides the canvas, keeps the strokes, and changes nothing else |
| `Composer.CancelKeepsSession` | app/screens/ChatMenu/ChatInput.tsx:325 | cancel then reopen gives back the same strokes |
| `Composer.GrantStroke` | app/screens/ChatMenu/ChatInput.tsx:173-177 | on the composer state, grant changes the rendered path list exactly as the source's updater does, and nothing else |
| `Composer.MoveStroke` | app/screens/ChatMenu/ChatInput.tsx:178-184 | on the composer state, move changes the rendered path list exactly as the source's updater does, and nothing else |
| `Composer.AttachImage` | app/screens/ChatMenu/ChatInput.tsx:148-164 | a denied permission raises the permission alert and changes no state; a cancelled picker changes nothing; picked uris are appended in order after the unchanged existing list |
| `Composer.RemoveAttachment` | app/screens/ChatMenu/ChatInput.tsx:166-168 | an attachment survives exactly when it was present and has another id; order is kept, the list shrinks by exactly the number of entries carrying the id, nothing else changes |
| `Composer.SaveDrawing` | app/screens/ChatMenu/ChatInput.tsx:189-201 | on capture success exactly one attachment with the captured uri is appended, the session is emptied and the canvas hidden; on failure the error alert is raised and images, paths and visibility are unchanged |
| `Composer.SendCalls` | app/screens/ChatMenu/ChatInput.tsx:226-231 | a user entry is requested only for a non-blank message; the empty non-user placeholder follows unless the user entry was rejected; Generate for the placeholder's id comes last, exactly when both calls resolved and the id is truthy |
| `Composer.Send` | app/screens/ChatMenu/ChatInput.tsx:226-231 | only the message can change; it is cleared exactly when both awaited entry calls resolve, and kept when either is rejected; the calls are those of `SendCalls` |
| `Composer.Abort` | app/screens/ChatMenu/ChatInput.tsx:221-224 | the abort function is called exactly when one exists; the state is unchanged |
| `Composer.Dispatch` | app/screens/ChatMenu/ChatInput.tsx:301-331 | canvas gestures and canvas buttons do nothing while the canvas is hidden; only attach, remove and save events can change the attachment list |
| `Composer.ImagesUntouched` | app/screens/ChatMenu/ChatInput.tsx:226-231 | over any trace without attach, remove or save events, in particular any number of sends, the attachment list is unchanged |
| `Composer.TouchesRecord` | app/screens/ChatMenu/ChatInput.tsx:304-311 | on the open canvas, a run of touches records strokes exactly as the stroke recorder alone does, emits nothing, and changes nothing else |
| `Composer.DrawFromMount` | app/screens/ChatMenu/ChatInput.tsx:170-187 | from mount, opening the canvas and drawing yields the per-grant reference session |
| `Composer.CallsPlaceholders` | app/screens/ChatMenu/ChatInput.tsx:226-231 | a send requests exactly one placeholder entry, or none when its user entry is rejected |
| `Composer.PlaceholdersPerSend` | app/screens/ChatMenu/ChatInput.tsx:226-231 | over any trace, placeholder entries never outnumber sends, and they equal the sends when the store accepts every user entry |

## Left out

- Layout, styles, theme colours and JSX structure (lines 33-137 and
  233-333): presentation only. The only part kept is which controls are
  mounted while the canvas is visible.
- Attachment id generation from `Date.now()` and `Math.random()` (line 141):
  each fresh id is a parameter. The code does not guarantee uniqueness, so
  uniqueness is a hypothesis of the lemmas that need it.
- `captureRef` rasterisation, the image picker's permission and launch
  calls, `addEntry`, `generateResponse` and `abortFunction`: foreign calls.
  Their results are parameters and the calls are effects. The rejection a
  failed `addEntry` raises out of the handler is not modelled beyond
  stopping the handler at that call.
- Send-on-enter (lines 28 and 274-275): a persisted setting and keyboard
  behaviour of the text input.
- The switch between the send and stop buttons on `nowGenerating`
  (lines 277-297): send and stop are separate events with no gate.
- Floating-point pointer coordinates and JavaScript number formatting:
  coordinates are integers, formatted as decimal digits with a leading
  minus sign.
- How the SVG `Path` draws or rejects the orphan string `undefined L x y`
  (lines 313-315): the drawing library is not part of this model. The
  model's own reader `Strokes.ParseStroke` accepts that form only to
  invert rendering.
- Asynchronous ordering: each handler runs to completion atomically. The
  source clears the message after the awaited entry calls, and a picker or
  capture can resolve after other events. Render scheduling is also left
  out.
- `Logger.info` and `console.error` calls: diagnostics only. The alerts are
  kept as effects.
