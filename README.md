# sl-dialog visibility state machine, in Dafny

This project models the `sl-dialog` web component of Shoelace (`src/components/dialog/dialog.tsx`).
The dialog is a modal overlay panel. It is shown and hidden through `show()`, `hide()` or the
reflected `open` property. Each of these emits a cancelable `sl-show` / `sl-hide` pre-event.
While shown, the dialog locks body scrolling and installs a document `focusin` listener that
pulls focus back into the panel. The end of the panel's opacity transition emits
`sl-after-show` / `sl-after-hide`. Escape, the close button and the overlay dismiss the dialog.
An overlay click first emits the cancelable `sl-overlay-dismiss`.

The project has four modules:

- `Lifecycle` (`lifecycle.dfy`): the state of one dialog as a value, `DialogState`. It holds
  `open`, the base wrapper's `hidden` flag, `hasFooter`, whether the `focusin` listener is
  installed, whether an animation-frame callback is queued, and a trace. The trace records the
  emitted events, the `lockBodyScrolling` / `unlockBodyScrolling` calls made on the host and
  the `panel.focus()` calls. One function per operation gives the state after it, including
  everything the operation sets off synchronously through the `open` watcher. The lemmas state
  what the component promises about those functions. `Step` and `Run` fold any sequence of
  inputs, and `RunKeepsOrder` proves an ordering guarantee for every run.
- `Dialogs` (`dialog.dfy`): the component as a class, `Dialogs.Dialog`, whose methods update
  its fields in place. Every assignment to `open` goes through `SetOpen`. `SetOpen` runs the
  watcher `HandleOpenChange` only when the value changes, and the watcher calls `Show` or
  `Hide`. So the re-entry is real recursion here: `Hide` assigns `open` and triggers a nested
  `Hide`, and the frame callback assigns `open` and triggers a second `Show`. Each method is
  proved to leave the object in the state that the matching `Lifecycle` function gives.
- `Rendering` (`rendering.dfy`): the parts of `render` that depend on state. These are the
  class map, `aria-hidden`, the choice between `aria-label` and `aria-labeledby` (spelled that
  way in the component), the header and the title-text fallback.
- `ComponentIds` (`component_id.dfy`): the page-wide `id` counter and the ids
  `"dialog-" + n` that it hands out.

Each cancelable event is answered by a boolean input: true when a listener called
`preventDefault()`. `Hide` takes two answers, `prevented` and `echoPrevented`:

- `prevented` is the answer to its own `sl-hide`.
- `echoPrevented` is the answer to the `sl-hide` of the nested `hide()`. The watcher runs that
  nested call when this call closes an open dialog.

## Behaviour of the code worth knowing

The doc comment of `open` (dialog.tsx:38) says the property can be used in lieu of `show()` and
`hide()`. The doc comments of `sl-after-show` and `sl-after-hide` (dialog.tsx:61, 67) say these
events are emitted after the dialog has opened or closed and its transitions are complete. The
model follows the code, which gives the results below. The lemma named in each item proves it.
"Balanced" and "unbalanced" below count calls of `lockBodyScrolling` and `unlockBodyScrolling`.
They say nothing about lock depth, which depends on the scroll utility, and that is not part of
this model.

- On a closed dialog, `show()` followed by the frame it queues emits `sl-show` twice and locks
  scrolling twice, once if the second `sl-show` is prevented (`Lifecycle.ShowThenFrameLocksTwice`). The frame assigns `open = true`, and the watcher then
  calls `show()` again. Opening by assigning `open = true` emits `sl-show` once and locks once,
  because the frame finds `open` already true (`Lifecycle.AssignOpenLocksOnce`). On a dialog
  that is already open, the frame after `show()` likewise finds `open` true, so there is one
  `sl-show` and one lock call (`Lifecycle.FrameReentersShow`).
- A `hide()` that goes ahead on an open dialog emits `sl-hide` twice and unlocks twice, or once if the nested
  `sl-hide` is prevented (`Lifecycle.HideProceeds`). Closing by assigning `open = false` emits
  `sl-hide` once and unlocks once (`Lifecycle.AssignCloseUnlocksOnce`). A prevented `hide()`
  emits `sl-hide` once and does not unlock (`Lifecycle.HidePrevented`).
- Escape, the close button and the overlay run `hide()` whatever the state (dialog.tsx:131-155).
  On a dialog that is already closed, each of them makes one more `sl-hide` and, unless
  prevented, one more unlock call (`Lifecycle.HideProceeds` with `open` false,
  `Lifecycle.EscapeHides`, `Lifecycle.OverlayDismiss`).
- A frame still queued when `componentDidUnload` runs reopens the dialog afterwards. It locks
  again and reinstalls the listener (`Lifecycle.FrameAfterTeardownReopens`).
- So the lock and unlock calls balance when `show()` opens and `hide()` closes
  (`Lifecycle.OpenCloseCycleBalanced`), but not when the two ways are mixed. Opening by
  assignment and closing by `hide()` makes one lock and two unlocks
  (`Lifecycle.AssignOpenThenHideUnbalanced`). So does a dialog that starts open and is closed
  by `hide()` (`Lifecycle.StartOpenThenHideUnbalanced`). Opening by `show()` and closing by
  assignment makes two locks and one unlock (`Lifecycle.ShowThenAssignCloseUnbalanced`). As far
  as the lock calls go, `open` is not interchangeable with `show()` and `hide()`.
- Teardown unlocks once and does not remove the `focusin` listener. A dialog opened by `show()`
  and its frame is left with two lock calls against one unlock call
  (`Lifecycle.TeardownWhileOpenLeaves`). A dialog that started open is left balanced, one lock
  call against one unlock call (`Lifecycle.StartOpenTeardownBalanced`).
- The watcher's second `show()` queues another frame, and `hide()` does not cancel it. If the
  dialog is hidden before that frame runs, the frame reopens it
  (`Lifecycle.HideBeforeQueuedFrameReopens`).
- An assignment to `open` keeps the assigned value even when the pre-event it triggers is
  prevented (`Lifecycle.AssignOpenFiresWatcherOnChange`).
- As documented, `sl-after-show` and `sl-after-hide` come only from the end of the panel's
  opacity transition. Every other input emits neither (`Lifecycle.OnlyTransitionEndEmitsAfter`).
- `hasFooter` is computed in `componentWillLoad`. The `slotchange` listener is registered
  without binding `this` (dialog.tsx:83), so this model does not claim that `hasFooter` is
  refreshed when slotted content changes. The input `SlotsInput` of `Lifecycle.Step` stands
  for a direct call of `updateSlots()`, not for a slot change.

## Model

| member | source | states |
|---|---|---|
| `ComponentIds.IdCounter.constructor` | src/components/dialog/dialog.tsx:5 | the module-level counter starts at 0 |
| `ComponentIds.IdCounter.Next` | src/components/dialog/dialog.tsx:32 | `++id`: the counter grows by one and the new value is returned |
| `ComponentIds.Decimal` | src/components/dialog/dialog.tsx:32 | the decimal spelling of the counter is non-empty, all digits, and has a leading zero only for 0 |
| `ComponentIds.DecimalRoundTrip` | src/components/dialog/dialog.tsx:32 | reading the decimal spelling back gives the number |
| `ComponentIds.ComponentIdInjective` | src/components/dialog/dialog.tsx:32 | two counter values give the same `dialog-n` id only if they are equal, so every instance gets its own id |
| `Dialogs.Dialog.constructor` | src/components/dialog/dialog.tsx:29-51 | a new dialog takes the next counter value as its id; it starts with `hidden` set, no footer, no listener, no queued frame and an empty trace |
| `Dialogs.Dialog.Show` | src/components/dialog/dialog.tsx:99-114 | returns false exactly when `sl-show` is prevented; the new state is `Lifecycle.Show` of the old one |
| `Dialogs.Dialog.Hide` | src/components/dialog/dialog.tsx:116-129 | returns false exactly when `sl-hide` is prevented; the new state, after the re-entry through the watcher, is `Lifecycle.Hide` of the old one |
| `Dialogs.Dialog.SetOpen` | src/components/dialog/dialog.tsx:39 | an assignment to `open`, watcher included, yields `Lifecycle.AssignOpen` of the old state |
| `Dialogs.Dialog.HandleOpenChange` | src/components/dialog/dialog.tsx:53-56 | the watcher acts as `show()` when `open` is true and as `hide()` when it is false |
| `Dialogs.Dialog.AnimationFrame` | src/components/dialog/dialog.tsx:110 | running the queued frame yields `Lifecycle.AnimationFrame` of the old state |
| `Dialogs.Dialog.ComponentWillLoad` | src/components/dialog/dialog.tsx:81-84 | `hasFooter` becomes the answer of `hasSlot(host, 'footer')`; nothing else changes |
| `Dialogs.Dialog.UpdateSlots` | src/components/dialog/dialog.tsx:171-173 | `hasFooter` becomes the answer of `hasSlot(host, 'footer')`; nothing else changes |
| `Dialogs.Dialog.ComponentDidLoad` | src/components/dialog/dialog.tsx:86-91 | runs `show()` exactly when the dialog starts open |
| `Dialogs.Dialog.ComponentDidUnload` | src/components/dialog/dialog.tsx:93-97 | records one unlock call; the focusin listener and all other fields are unchanged |
| `Dialogs.Dialog.HandleCloseClick` | src/components/dialog/dialog.tsx:131-133 | the close button always runs `hide()` |
| `Dialogs.Dialog.HandleDocumentFocusIn` | src/components/dialog/dialog.tsx:135-141 | when the focused element's nearest `sl-dialog` is not this host, focus moves to the panel; otherwise nothing changes. The target may be outside the host or inside a dialog nested in it |
| `Dialogs.Dialog.HandleKeyDown` | src/components/dialog/dialog.tsx:143-147 | Escape runs `hide()`; any other key changes nothing |
| `Dialogs.Dialog.HandleOverlayClick` | src/components/dialog/dialog.tsx:149-155 | emits `sl-overlay-dismiss`, then runs `hide()` unless that event is prevented |
| `Dialogs.Dialog.HandleTransitionEnd` | src/components/dialog/dialog.tsx:157-169 | yields `Lifecycle.TransitionEnd` of the old state |
| `Lifecycle.ShowPrevented` | src/components/dialog/dialog.tsx:102-106 | a prevented `show()` only records its `sl-show`; `open`, `hidden`, the lock calls and the listener are unchanged |
| `Lifecycle.ShowProceeds` | src/components/dialog/dialog.tsx:108-113 | a `show()` that goes ahead clears `hidden`, makes exactly one lock call, installs the listener and queues the frame; `open` is unchanged |
| `Lifecycle.HidePrevented` | src/components/dialog/dialog.tsx:119-123 | a prevented `hide()` only records its `sl-hide` |
| `Lifecycle.HideProceeds` | src/components/dialog/dialog.tsx:119-128 | a `hide()` that goes ahead makes `open` false and removes the listener, and leaves `hidden` and the queued frame alone; it unlocks once itself, plus once more through the watcher's nested `hide()` when the dialog was open and that call is not prevented |
| `Lifecycle.AssignOpenFiresWatcherOnChange` | src/components/dialog/dialog.tsx:53-56 | after an assignment `open` holds the assigned value; assigning the current value does nothing; a change emits exactly one pre-event, `sl-show` for true and `sl-hide` for false |
| `Lifecycle.DidLoadShowsIffOpen` | src/components/dialog/dialog.tsx:86-91 | `componentDidLoad` emits `sl-show` exactly when the dialog starts open, and never changes `open` |
| `Lifecycle.FrameReentersShow` | src/components/dialog/dialog.tsx:110 | with no frame queued nothing happens; a queued frame on a closed dialog sets `open` and runs `show()` again through the watcher; on an open dialog it only dequeues |
| `Lifecycle.ShowThenFrameLocksTwice` | src/components/dialog/dialog.tsx:101-114 | from closed, `show()` and its frame leave the dialog open with two `sl-show` emissions and two lock calls (one if the second `sl-show` is prevented) |
| `Lifecycle.OpenCloseCycleBalanced` | src/components/dialog/dialog.tsx:101-129 | from closed, `show()`, its frame and `hide()` with nothing prevented make two lock and two unlock calls and leave the dialog closed without a listener |
| `Lifecycle.AssignOpenLocksOnce` | src/components/dialog/dialog.tsx:38-56 | from closed, `open = true` and its frame leave the dialog open with one `sl-show` and one lock call |
| `Lifecycle.AssignCloseUnlocksOnce` | src/components/dialog/dialog.tsx:53-56 | on an open dialog, `open = false` closes it with one `sl-hide` and one unlock call (none if prevented), and removes the listener unless prevented |
| `Lifecycle.AssignOpenThenHideUnbalanced` | src/components/dialog/dialog.tsx:38-129 | from closed, `open = true`, its frame and `hide()` with nothing prevented make one lock call and two unlock calls |
| `Lifecycle.StartOpenThenHideUnbalanced` | src/components/dialog/dialog.tsx:86-129 | a dialog that starts open, after its frame and `hide()` with nothing prevented, has made one lock call and two unlock calls |
| `Lifecycle.ShowThenAssignCloseUnbalanced` | src/components/dialog/dialog.tsx:53-129 | from closed, `show()`, its frame and `open = false` with nothing prevented make two lock calls and one unlock call |
| `Lifecycle.HideBeforeQueuedFrameReopens` | src/components/dialog/dialog.tsx:108-128 | after that cycle a frame is still queued, and running it reopens the dialog and reinstalls the listener |
| `Lifecycle.TeardownWhileOpenLeaves` | src/components/dialog/dialog.tsx:93-97 | tearing down a dialog opened by `show()` and its frame leaves two lock calls against one unlock call, with the listener still installed |
| `Lifecycle.FrameAfterTeardownReopens` | src/components/dialog/dialog.tsx:93-113 | a `show()` from closed whose frame is still queued at teardown: running the frame afterwards opens the dialog, makes one more `sl-show` and one more lock call, and reinstalls the listener |
| `Lifecycle.StartOpenTeardownBalanced` | src/components/dialog/dialog.tsx:86-97 | a dialog that started open, torn down after its frame, has made one lock call and one unlock call, with the listener still installed |
| `Lifecycle.OnlyTransitionEndEmitsAfter` | src/components/dialog/dialog.tsx:61-68 | every input other than a transition end, whatever the listeners answer, emits neither `sl-after-show` nor `sl-after-hide` |
| `Lifecycle.TransitionEndFilters` | src/components/dialog/dialog.tsx:157-169 | only the end of the `opacity` transition on an element with class `dialog__panel` acts; it sets `hidden` to `!open` and emits exactly one of `sl-after-show` (open) and `sl-after-hide` (closed); it focuses the panel exactly when open and never changes `open` |
| `Lifecycle.EscapeHides` | src/components/dialog/dialog.tsx:143-147 | a key press changes the state exactly when the key is Escape, and then acts as `hide()` |
| `Lifecycle.OverlayDismiss` | src/components/dialog/dialog.tsx:149-155 | an overlay click emits exactly one `sl-overlay-dismiss`; it emits `sl-hide` exactly when that event is not prevented, and closes the dialog exactly when neither event is prevented |
| `Lifecycle.FocusInRedirects` | src/components/dialog/dialog.tsx:135-141 | a focus-in changes the state exactly when the target's nearest `sl-dialog` is not this host, and then only adds one panel focus |
| `Lifecycle.RunKeepsOrder` | src/components/dialog/dialog.tsx:101-169 | over any sequence of inputs, every lock call directly follows an `sl-show`, and every `sl-after-show` is directly followed by the panel taking focus |
| `Rendering.TitleText` | src/components/dialog/dialog.tsx:206 | the title is never empty: it is the label, or U+FEFF when the label is empty |
| `Dialogs.Dialog.View` | src/components/dialog/dialog.tsx:175-222 | what an instance renders follows its own fields: `dialog--open` and `aria-hidden` follow `open`, `dialog--has-footer` follows `hasFooter`, `aria-label` is the instance's label exactly when `noHeader`, and otherwise `aria-labeledby` is the instance's id followed by `-title` |
| `Rendering.Render` | src/components/dialog/dialog.tsx:180-206 | `dialog` is always a class; `dialog--open` is a class iff open, and `dialog--has-footer` iff `hasFooter`; `aria-hidden` is `!open`; exactly one of `aria-label` (the label, when `noHeader`) and `aria-labeledby` is set; `aria-labeledby` is `componentId + "-title"`, the id of the title span, which is rendered exactly when it is referenced |

## Left out

- Framework machinery is not modelled: the decorators, the virtual-DOM diffing and the
  `async`/Promise wrapping of `show()` and `hide()`. These become ordinary methods.
- `Dialogs.Dialog.Show` and `Dialogs.Dialog.Hide` return true when they go ahead. The component
  resolves to `undefined` in that case, and to `false` only when the call is prevented.
- The watcher runs on every change of `open` from construction on. The framework's rule that
  watchers start only once the component has loaded is not modelled.
- The forced reflow (`this.host.clientWidth`) is left out because it has no logical effect.
- `requestAnimationFrame` is an explicit step, not timing. Callbacks queued before one frame
  collapse into one flag. After the first callback sets `open`, the rest see no change.
- DOM behaviour becomes inputs and recorded actions. `closest('sl-dialog')` becomes a boolean.
  `classList` becomes a set of class names. `focus()` becomes a `FocusPanel` action. Event
  bubbling, tab order and the browser's modal focus trapping are not modelled.
- `lockBodyScrolling`, `unlockBodyScrolling` and `hasSlot` come from utility modules that are
  not part of this model. The lock calls are recorded and `hasSlot` is an input. The utility's
  shared lock state, whose semantics are not shown, is not modelled.
- The registration and removal of the `slotchange` listener are not modelled, for the reason
  given above.
- A listener of `sl-show`, `sl-hide`, `sl-after-show`, `sl-after-hide` or `sl-overlay-dismiss`
  is reduced to its `preventDefault()` answer. Such a listener runs synchronously and could
  itself call `show()` or `hide()` or assign `open`. The model cannot express that. For example,
  the component reads `open` again after emitting the after-event (dialog.tsx:163-166). An
  `sl-after-show` listener that closes the dialog therefore stops the panel focus, which
  `Lifecycle.TransitionEnd` always records for an open dialog.
- Re-connection is not modelled; every run is of a dialog connected once. On a re-connect
  `connectedCallback` binds `handleDocumentFocusIn` again (dialog.tsx:74), so `hide()`
  (dialog.tsx:128) cannot remove a listener that `show()` (dialog.tsx:113) added before the
  move. The single `focusListener` flag, and the `!focusListener` that `Lifecycle.HideProceeds`
  states, hold only for a dialog connected once.
- Changes to `label` and `noHeader` are not modelled: they are plain fields with no watcher.
- `render` is modelled only for its state-dependent attributes. Styling, parts, the static
  attributes (`role`, `aria-modal`, `tabIndex`) and the `sl-icon-button` child are left out.
- The `hidden` attribute that `render` writes is modelled only as its initial value. The
  diffing does not re-apply an unchanged attribute.
- The element references `dialog` and `panel` are assumed to be set, that is, the dialog has
  rendered once. Calls made before the first render are not modelled.
- The id counter is an unbounded natural number. JavaScript's number range is not modelled.
