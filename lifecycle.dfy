/**
 * The visibility state machine of sl-dialog as functions on a state value. Each function gives
 * the state after one operation of the component, including everything the operation triggers
 * synchronously through the `open` watcher. The class Dialogs.Dialog is proved to follow them.
 *
 * Every cancelable event is answered by a boolean argument: true when a listener called
 * `preventDefault()` on it.
 */
module Lifecycle {

  /** The events the component emits. */
  datatype Event = SlShow | SlHide | SlAfterShow | SlAfterHide | SlOverlayDismiss

  /** What the component does outside its own fields: events, scroll-lock calls, focus moves. */
  datatype Action =
    | Emit(event: Event)
    | LockScroll     // lockBodyScrolling(host)
    | UnlockScroll   // unlockBodyScrolling(host)
    | FocusPanel     // panel.focus()

  /**
   * The state of one dialog: the `open` property, the container's `hidden` flag, `hasFooter`,
   * whether the document `focusin` listener is installed, whether an animation-frame callback
   * is queued, and the actions taken so far.
   */
  datatype DialogState = DialogState(
    open: bool,
    hidden: bool,
    hasFooter: bool,
    focusListener: bool,
    pendingFrame: bool,
    trace: seq<Action>)

  /** A freshly rendered dialog: the container carries `hidden`, nothing is installed. */
  function Initial(open: bool): DialogState {
    DialogState(open, true, false, false, false, [])
  }

  function Record(s: DialogState, actions: seq<Action>): DialogState {
    s.(trace := s.trace + actions)
  }

  /** Number of occurrences of an action in a trace. */
  function Count(t: seq<Action>, a: Action): nat {
    multiset(t)[a]
  }

  /** The change a state's trace went through, assuming it extends the earlier one. */
  function Added(before: DialogState, after: DialogState, a: Action): int {
    Count(after.trace, a) - Count(before.trace, a)
  }

  // ---------------------------------------------------------------- show / hide

  /**
   * `show()`: emits sl-show; unless prevented, un-hides the container, queues the frame that
   * sets `open`, locks scrolling and installs the focusin listener. `open` is not touched.
   */
  function Show(s: DialogState, prevented: bool): DialogState {
    if prevented then Record(s, [Emit(SlShow)])
    else s.(hidden := false, pendingFrame := true, focusListener := true,
            trace := s.trace + [Emit(SlShow), LockScroll])
  }

  /**
   * The actions of one `hide()` call entered while `open` is `wasOpen`. When it closes an open
   * dialog, the watcher runs a second `hide()` (answered by `echoPrevented`) before this call
   * releases the lock; that nested call finds `open` already false.
   */
  function HideTrace(prevented: bool, echoPrevented: bool, wasOpen: bool): seq<Action>
    decreases wasOpen
  {
    [Emit(SlHide)] +
    if prevented then []
    else (if wasOpen then HideTrace(echoPrevented, echoPrevented, false) else []) + [UnlockScroll]
  }

  /**
   * `hide()`: emits sl-hide; unless prevented, sets `open` to false at once, unlocks scrolling
   * and removes the focusin listener. The container's `hidden` flag is left alone.
   */
  function Hide(s: DialogState, prevented: bool, echoPrevented: bool): DialogState {
    if prevented then Record(s, [Emit(SlHide)])
    else s.(open := false, focusListener := false,
            trace := s.trace + HideTrace(false, echoPrevented, s.open))
  }

  /**
   * An assignment to the `open` property. When the value changes the watcher runs `show()` for
   * true and `hide()` for false (that `hide()` finds `open` already false, so the answer for a
   * further nested sl-hide is never consulted).
   */
  function AssignOpen(s: DialogState, value: bool, prevented: bool): DialogState {
    if s.open == value then s
    else if value then Show(s.(open := true), prevented)
    else Hide(s.(open := false), prevented, prevented)
  }

  /** The browser renders a frame: the queued callback, if any, runs `this.open = true`. */
  function AnimationFrame(s: DialogState, prevented: bool): DialogState {
    if !s.pendingFrame then s else AssignOpen(s.(pendingFrame := false), true, prevented)
  }

  /** `componentDidUnload`: releases the scroll lock; the focusin listener stays installed. */
  function Teardown(s: DialogState): DialogState {
    Record(s, [UnlockScroll])
  }

  /**
   * `handleTransitionEnd`: only the end of the panel's opacity transition counts; it re-applies
   * `hidden` from `open`, emits the matching after-event and, when open, focuses the panel.
   */
  function TransitionEnd(s: DialogState, propertyName: string, targetClasses: set<string>): DialogState {
    if propertyName == "opacity" && "dialog__panel" in targetClasses then
      s.(hidden := !s.open,
         trace := s.trace + if s.open then [Emit(SlAfterShow), FocusPanel] else [Emit(SlAfterHide)])
    else s
  }

  /** `handleKeyDown`: Escape hides; any other key does nothing. */
  function KeyDown(s: DialogState, key: string, prevented: bool, echoPrevented: bool): DialogState {
    if key == "Escape" then Hide(s, prevented, echoPrevented) else s
  }

  /** `handleOverlayClick`: emits sl-overlay-dismiss and hides unless that event is prevented. */
  function OverlayClick(s: DialogState, dismissPrevented: bool, prevented: bool, echoPrevented: bool): DialogState {
    var t := Record(s, [Emit(SlOverlayDismiss)]);
    if dismissPrevented then t else Hide(t, prevented, echoPrevented)
  }

  /**
   * `handleDocumentFocusIn`: focus whose target has a nearest sl-dialog other than this host
   * (outside it, or inside a dialog nested in it) is pulled back to the panel.
   */
  function FocusIn(s: DialogState, nearestDialogIsHost: bool): DialogState {
    if nearestDialogIsHost then s else Record(s, [FocusPanel])
  }

  /** `componentDidLoad`: shows when the dialog starts open. */
  function DidLoad(s: DialogState, prevented: bool): DialogState {
    if s.open then Show(s, prevented) else s
  }

  /** `updateSlots`, with the answer of `hasSlot(host, 'footer')`. */
  function UpdateSlots(s: DialogState, footerSlotted: bool): DialogState {
    s.(hasFooter := footerSlotted)
  }

  // ---------------------------------------------------------------- runs

  /** One thing that can happen to a dialog, with the answers of the listeners it consults. */
  datatype Input =
    | ShowCall(prevented: bool)
    | HideCall(prevented: bool, echoPrevented: bool)
    | AssignOpenInput(value: bool, prevented: bool)
    | Frame(prevented: bool)
    | TransitionEndInput(propertyName: string, targetClasses: set<string>)
    | KeyDownInput(key: string, prevented: bool, echoPrevented: bool)
    | OverlayClickInput(dismissPrevented: bool, prevented: bool, echoPrevented: bool)
    | CloseClickInput(prevented: bool, echoPrevented: bool)
    | DocumentFocusIn(nearestDialogIsHost: bool)   // reaches the handler only while it is installed
    | DidLoadInput(prevented: bool)
    | DidUnloadInput
    | SlotsInput(footerSlotted: bool)   // a direct call of updateSlots(); no slot change reaches it

  function Step(s: DialogState, i: Input): DialogState {
    match i
    case ShowCall(p) => Show(s, p)
    case HideCall(p, e) => Hide(s, p, e)
    case AssignOpenInput(v, p) => AssignOpen(s, v, p)
    case Frame(p) => AnimationFrame(s, p)
    case TransitionEndInput(name, classes) => TransitionEnd(s, name, classes)
    case KeyDownInput(key, p, e) => KeyDown(s, key, p, e)
    case OverlayClickInput(d, p, e) => OverlayClick(s, d, p, e)
    case CloseClickInput(p, e) => Hide(s, p, e)
    case DocumentFocusIn(isHost) => if s.focusListener then FocusIn(s, isHost) else s
    case DidLoadInput(p) => DidLoad(s, p)
    case DidUnloadInput => Teardown(s)
    case SlotsInput(f) => UpdateSlots(s, f)
  }

  function Run(s: DialogState, inputs: seq<Input>): DialogState
    decreases |inputs|
  {
    if inputs == [] then s else Run(Step(s, inputs[0]), inputs[1..])
  }

  /**
   * Ordering of a trace: every lock call comes right after an sl-show emission, and every
   * sl-after-show is right away followed by the panel taking focus.
   */
  predicate WellOrdered(t: seq<Action>) {
    (forall i :: 0 <= i < |t| && t[i] == LockScroll ==> 0 < i && t[i - 1] == Emit(SlShow)) &&
    (forall i :: 0 <= i < |t| && t[i] == Emit(SlAfterShow) ==> i + 1 < |t| && t[i + 1] == FocusPanel)
  }

  lemma AppendKeepsOrder(t: seq<Action>, u: seq<Action>)
    requires WellOrdered(t) && WellOrdered(u)
    requires u != [] ==> u[0] != LockScroll
    ensures WellOrdered(t + u)
  {
    var w := t + u;
    forall i | 0 <= i < |w| && w[i] == LockScroll
      ensures 0 < i && w[i - 1] == Emit(SlShow)
    {
      if i >= |t| {
        assert u[i - |t|] == LockScroll;
      }
    }
    forall i | 0 <= i < |w| && w[i] == Emit(SlAfterShow)
      ensures i + 1 < |w| && w[i + 1] == FocusPanel
    {
      if i >= |t| {
        assert u[i - |t|] == Emit(SlAfterShow);
      }
    }
  }

  lemma HideTraceOrdered(prevented: bool, echoPrevented: bool, wasOpen: bool)
    ensures WellOrdered(HideTrace(prevented, echoPrevented, wasOpen))
    ensures HideTrace(prevented, echoPrevented, wasOpen)[0] == Emit(SlHide)
  {
  }

  lemma ShowKeepsOrder(s: DialogState, prevented: bool)
    requires WellOrdered(s.trace)
    ensures WellOrdered(Show(s, prevented).trace)
  {
    if prevented {
      AppendKeepsOrder(s.trace, [Emit(SlShow)]);
    } else {
      AppendKeepsOrder(s.trace, [Emit(SlShow), LockScroll]);
    }
  }

  lemma HideKeepsOrder(s: DialogState, prevented: bool, echoPrevented: bool)
    requires WellOrdered(s.trace)
    ensures WellOrdered(Hide(s, prevented, echoPrevented).trace)
  {
    if prevented {
      AppendKeepsOrder(s.trace, [Emit(SlHide)]);
    } else {
      HideTraceOrdered(false, echoPrevented, s.open);
      AppendKeepsOrder(s.trace, HideTrace(false, echoPrevented, s.open));
    }
  }

  lemma StepKeepsOrder(s: DialogState, i: Input)
    requires WellOrdered(s.trace)
    ensures WellOrdered(Step(s, i).trace)
  {
    match i
    case ShowCall(p) => ShowKeepsOrder(s, p);
    case HideCall(p, e) => HideKeepsOrder(s, p, e);
    case AssignOpenInput(v, p) =>
      ShowKeepsOrder(s.(open := true), p);
      HideKeepsOrder(s.(open := false), p, p);
    case Frame(p) =>
      ShowKeepsOrder(s.(open := true, pendingFrame := false), p);
    case TransitionEndInput(name, classes) =>
      if s.open {
        AppendKeepsOrder(s.trace, [Emit(SlAfterShow), FocusPanel]);
      } else {
        AppendKeepsOrder(s.trace, [Emit(SlAfterHide)]);
      }
    case KeyDownInput(key, p, e) => HideKeepsOrder(s, p, e);
    case OverlayClickInput(d, p, e) =>
      AppendKeepsOrder(s.trace, [Emit(SlOverlayDismiss)]);
      HideKeepsOrder(Record(s, [Emit(SlOverlayDismiss)]), p, e);
    case CloseClickInput(p, e) => HideKeepsOrder(s, p, e);
    case DocumentFocusIn(isHost) => AppendKeepsOrder(s.trace, [FocusPanel]);
    case DidLoadInput(p) => ShowKeepsOrder(s, p);
    case DidUnloadInput => AppendKeepsOrder(s.trace, [UnlockScroll]);
    case SlotsInput(f) =>
  }

  /** Whatever happens to a dialog, its trace stays well ordered. */
  lemma {:induction false} RunKeepsOrder(s: DialogState, inputs: seq<Input>)
    requires WellOrdered(s.trace)
    ensures WellOrdered(Run(s, inputs).trace)
    decreases |inputs|
  {
    if inputs != [] {
      StepKeepsOrder(s, inputs[0]);
      RunKeepsOrder(Step(s, inputs[0]), inputs[1..]);
    }
  }

  // ---------------------------------------------------------------- properties

  /** A prevented show() records its sl-show and changes nothing else. */
  lemma ShowPrevented(s: DialogState)
    ensures Show(s, true) == s.(trace := s.trace + [Emit(SlShow)])
  {
  }

  /** A show() that goes ahead un-hides, queues a frame, locks once and installs the listener. */
  lemma ShowProceeds(s: DialogState)
    ensures var t := Show(s, false);
      t.open == s.open && t.hasFooter == s.hasFooter &&
      !t.hidden && t.pendingFrame && t.focusListener &&
      Added(s, t, Emit(SlShow)) == 1 && Added(s, t, LockScroll) == 1 && Added(s, t, UnlockScroll) == 0
  {
  }

  /** A prevented hide() records its sl-hide and changes nothing else. */
  lemma HidePrevented(s: DialogState, echoPrevented: bool)
    ensures Hide(s, true, echoPrevented) == s.(trace := s.trace + [Emit(SlHide)])
  {
  }

  lemma HideTraceCounts(prevented: bool, echoPrevented: bool, wasOpen: bool)
    ensures var t := HideTrace(prevented, echoPrevented, wasOpen);
      Count(t, Emit(SlHide)) == (if !prevented && wasOpen then 2 else 1) &&
      Count(t, UnlockScroll) == (if prevented then 0 else if wasOpen && !echoPrevented then 2 else 1) &&
      Count(t, LockScroll) == 0 && Count(t, Emit(SlShow)) == 0 &&
      Count(t, Emit(SlOverlayDismiss)) == 0 &&
      Count(t, Emit(SlAfterShow)) == 0 && Count(t, Emit(SlAfterHide)) == 0
  {
  }

  /**
   * A hide() that goes ahead closes at once, removes the listener and leaves `hidden` alone. It
   * unlocks once itself; from the open state the watcher's nested hide() emits a second sl-hide
   * and, unless prevented, unlocks a second time.
   */
  lemma HideProceeds(s: DialogState, echoPrevented: bool)
    ensures var t := Hide(s, false, echoPrevented);
      !t.open && !t.focusListener && t.hidden == s.hidden && t.pendingFrame == s.pendingFrame &&
      Added(s, t, Emit(SlHide)) == (if s.open then 2 else 1) &&
      Added(s, t, UnlockScroll) == (if s.open && !echoPrevented then 2 else 1) &&
      Added(s, t, LockScroll) == 0
  {
    HideTraceCounts(false, echoPrevented, s.open);
  }

  /**
   * The watcher: after any assignment `open` holds the assigned value (even when the pre-event
   * it triggers is prevented); an assignment of the current value does nothing; a change
   * emits exactly one pre-event, sl-show for true and sl-hide for false.
   */
  lemma AssignOpenFiresWatcherOnChange(s: DialogState, value: bool, prevented: bool)
    ensures AssignOpen(s, value, prevented).open == value
    ensures s.open == value ==> AssignOpen(s, value, prevented) == s
    ensures s.open != value ==>
      var t := AssignOpen(s, value, prevented);
      Added(s, t, Emit(if value then SlShow else SlHide)) == 1 &&
      Added(s, t, Emit(if value then SlHide else SlShow)) == 0
  {
  }

  /**
   * The queued frame callback re-enters show(): when it flips `open` to true, the watcher runs
   * show() again (a second sl-show, and unless prevented a second lock and another queued frame).
   */
  lemma FrameReentersShow(s: DialogState, prevented: bool)
    ensures !s.pendingFrame ==> AnimationFrame(s, prevented) == s
    ensures s.pendingFrame && s.open ==> AnimationFrame(s, prevented) == s.(pendingFrame := false)
    ensures s.pendingFrame && !s.open ==>
      AnimationFrame(s, prevented) == Show(s.(open := true, pendingFrame := false), prevented)
  {
  }

  /**
   * From closed, show() followed by its frame leaves the dialog open having emitted sl-show
   * twice and locked scrolling twice (once if the second sl-show is prevented).
   */
  lemma ShowThenFrameLocksTwice(s: DialogState, prevented: bool)
    requires !s.open
    ensures var t := AnimationFrame(Show(s, false), prevented);
      t.open && !t.hidden && t.focusListener && t.pendingFrame == !prevented &&
      Added(s, t, Emit(SlShow)) == 2 && Added(s, t, LockScroll) == (if prevented then 1 else 2)
  {
  }

  /**
   * A full cycle from closed, nothing prevented (show, its frame, hide): two lock calls and two
   * unlock calls, closed with no listener, and a second frame still queued.
   */
  lemma OpenCloseCycleBalanced(s: DialogState)
    requires !s.open
    ensures var t := Hide(AnimationFrame(Show(s, false), false), false, false);
      !t.open && !t.focusListener && t.pendingFrame &&
      Added(s, t, LockScroll) == 2 && Added(s, t, UnlockScroll) == 2
  {
  }

  /**
   * The frame queued by the watcher's show() is not cancelled by hide(): if the dialog is
   * hidden before that frame runs, the frame sets `open` again and the dialog reopens.
   */
  lemma HideBeforeQueuedFrameReopens(s: DialogState)
    requires !s.open
    ensures var t := Hide(AnimationFrame(Show(s, false), false), false, false);
      AnimationFrame(t, false).open && AnimationFrame(t, false).focusListener
  {
  }

  /**
   * Teardown of a dialog opened by show() and its frame (nothing prevented) releases one of its
   * two locks and leaves the focusin listener installed.
   */
  lemma TeardownWhileOpenLeaves(s: DialogState)
    requires !s.open
    ensures var t := Teardown(AnimationFrame(Show(s, false), false));
      t.open && t.focusListener &&
      Added(s, t, LockScroll) == 2 && Added(s, t, UnlockScroll) == 1
  {
  }

  /**
   * Opening by assignment instead: `open = true` from closed, then the frame it queued, emits
   * sl-show once and locks once, because the frame finds `open` already true.
   */
  lemma AssignOpenLocksOnce(s: DialogState)
    requires !s.open
    ensures var t := AnimationFrame(AssignOpen(s, true, false), false);
      t.open && t.focusListener && !t.pendingFrame &&
      Added(s, t, Emit(SlShow)) == 1 && Added(s, t, LockScroll) == 1
  {
  }

  /**
   * Closing by assignment: `open = false` on an open dialog runs a hide() that finds `open`
   * already false, so it emits sl-hide once and unlocks once (unless prevented).
   */
  lemma AssignCloseUnlocksOnce(s: DialogState, prevented: bool)
    requires s.open
    ensures var t := AssignOpen(s, false, prevented);
      !t.open && t.focusListener == (s.focusListener && prevented) &&
      Added(s, t, Emit(SlHide)) == 1 && Added(s, t, UnlockScroll) == (if prevented then 0 else 1)
  {
    HideTraceCounts(prevented, prevented, false);
  }

  /** Opened by assignment and closed by hide(), nothing prevented: one lock, two unlocks. */
  lemma AssignOpenThenHideUnbalanced(s: DialogState)
    requires !s.open
    ensures var t := Hide(AnimationFrame(AssignOpen(s, true, false), false), false, false);
      !t.open && Added(s, t, LockScroll) == 1 && Added(s, t, UnlockScroll) == 2
  {
  }

  /** Started open (componentDidLoad), frame run and closed by hide(): one lock, two unlocks. */
  lemma StartOpenThenHideUnbalanced(s: DialogState)
    requires s.open
    ensures var t := Hide(AnimationFrame(DidLoad(s, false), false), false, false);
      !t.open && Added(s, t, LockScroll) == 1 && Added(s, t, UnlockScroll) == 2
  {
  }

  /** Opened by show() and its frame, closed by `open = false`: two locks, one unlock. */
  lemma ShowThenAssignCloseUnbalanced(s: DialogState)
    requires !s.open
    ensures var t := AssignOpen(AnimationFrame(Show(s, false), false), false, false);
      !t.open && !t.focusListener && Added(s, t, LockScroll) == 2 && Added(s, t, UnlockScroll) == 1
  {
  }

  /**
   * A dialog that started open (frame run, nothing prevented) has made one lock call, and its
   * teardown balances it; the focusin listener still stays installed.
   */
  lemma StartOpenTeardownBalanced(s: DialogState)
    requires s.open
    ensures var t := Teardown(AnimationFrame(DidLoad(s, false), false));
      t.open && t.focusListener && Added(s, t, LockScroll) == 1 && Added(s, t, UnlockScroll) == 1
  {
  }

  /**
   * Teardown does not cancel a queued frame: a show() from closed, torn down before its frame,
   * is opened by that frame afterwards, locking again and reinstalling the listener.
   */
  lemma FrameAfterTeardownReopens(s: DialogState)
    requires !s.open
    ensures var t := Teardown(Show(s, false));
      var u := AnimationFrame(t, false);
      u.open && u.focusListener &&
      Added(t, u, Emit(SlShow)) == 1 && Added(t, u, LockScroll) == 1
  {
  }

  /** Escape hides (once, with whatever hide() then does) and every other key does nothing. */
  lemma EscapeHides(s: DialogState, key: string, prevented: bool, echoPrevented: bool)
    ensures KeyDown(s, key, prevented, echoPrevented) != s <==> key == "Escape"
    ensures key == "Escape" ==> KeyDown(s, key, prevented, echoPrevented) == Hide(s, prevented, echoPrevented)
  {
    if key == "Escape" {
      assert |Hide(s, prevented, echoPrevented).trace| > |s.trace|;
    }
  }

  /**
   * The overlay always emits sl-overlay-dismiss, calls hide() exactly when that event is not
   * prevented, and so closes the dialog exactly when neither it nor sl-hide is prevented.
   */
  lemma OverlayDismiss(s: DialogState, dismissPrevented: bool, prevented: bool, echoPrevented: bool)
    ensures Added(s, OverlayClick(s, dismissPrevented, prevented, echoPrevented), Emit(SlOverlayDismiss)) == 1
    ensures Added(s, OverlayClick(s, dismissPrevented, prevented, echoPrevented), Emit(SlHide)) > 0 <==> !dismissPrevented
    ensures OverlayClick(s, dismissPrevented, prevented, echoPrevented).open == (s.open && (dismissPrevented || prevented))
  {
    var t := OverlayClick(s, dismissPrevented, prevented, echoPrevented);
    var h := if dismissPrevented then []
             else if prevented then [Emit(SlHide)]
             else HideTrace(false, echoPrevented, s.open);
    assert t.trace == s.trace + [Emit(SlOverlayDismiss)] + h by {
      var r := Record(s, [Emit(SlOverlayDismiss)]);
      if !dismissPrevented && !prevented {
        assert t == Hide(r, false, echoPrevented);
      }
    }
    assert Count(h, Emit(SlOverlayDismiss)) == 0 && (Count(h, Emit(SlHide)) > 0 <==> !dismissPrevented) by {
      HideTraceCounts(false, echoPrevented, s.open);
    }
  }

  /** A focus-in whose nearest sl-dialog is not this host pulls focus to the panel; otherwise nothing changes. */
  lemma FocusInRedirects(s: DialogState, nearestDialogIsHost: bool)
    ensures FocusIn(s, nearestDialogIsHost) == s <==> nearestDialogIsHost
    ensures Added(s, FocusIn(s, nearestDialogIsHost), FocusPanel) == (if nearestDialogIsHost then 0 else 1)
    ensures FocusIn(s, nearestDialogIsHost).(trace := s.trace) == s
  {
    if !nearestDialogIsHost {
      assert |FocusIn(s, nearestDialogIsHost).trace| > |s.trace|;
    }
  }

  /** componentDidLoad calls show() exactly when the dialog starts open. */
  lemma DidLoadShowsIffOpen(s: DialogState, prevented: bool)
    ensures Added(s, DidLoad(s, prevented), Emit(SlShow)) == (if s.open then 1 else 0)
    ensures DidLoad(s, prevented).open == s.open
    ensures !s.open ==> DidLoad(s, prevented) == s
  {
  }

  /**
   * Only the end of the panel's opacity transition acts. It then makes `hidden` the negation of
   * `open`, emits exactly one of sl-after-show (open) and sl-after-hide (closed), and focuses
   * the panel exactly when open; `open` itself never changes.
   */
  lemma TransitionEndFilters(s: DialogState, propertyName: string, targetClasses: set<string>)
    ensures !(propertyName == "opacity" && "dialog__panel" in targetClasses) ==>
      TransitionEnd(s, propertyName, targetClasses) == s
    ensures propertyName == "opacity" && "dialog__panel" in targetClasses ==>
      var t := TransitionEnd(s, propertyName, targetClasses);
      t.open == s.open && t.hidden == !s.open && t.focusListener == s.focusListener &&
      Added(s, t, Emit(SlAfterShow)) == (if s.open then 1 else 0) &&
      Added(s, t, Emit(SlAfterHide)) == (if s.open then 0 else 1) &&
      Added(s, t, FocusPanel) == (if s.open then 1 else 0) &&
      Added(s, t, Emit(SlShow)) == 0 && Added(s, t, Emit(SlHide)) == 0
  {
  }

  /** `after` has emitted no after-event beyond those of `before`. */
  predicate NoAfterEvent(before: DialogState, after: DialogState) {
    Added(before, after, Emit(SlAfterShow)) == 0 && Added(before, after, Emit(SlAfterHide)) == 0
  }

  /** A trace extended by actions that hold no after-event gains no after-event. */
  lemma ExtendedWithoutAfter(s: DialogState, t: DialogState, u: seq<Action>)
    requires t.trace == s.trace + u
    requires Count(u, Emit(SlAfterShow)) == 0 && Count(u, Emit(SlAfterHide)) == 0
    ensures NoAfterEvent(s, t)
  {
  }

  lemma ShowEmitsNoAfter(s: DialogState, prevented: bool)
    ensures NoAfterEvent(s, Show(s, prevented))
  {
    ExtendedWithoutAfter(s, Show(s, prevented),
      if prevented then [Emit(SlShow)] else [Emit(SlShow), LockScroll]);
  }

  lemma HideEmitsNoAfter(s: DialogState, prevented: bool, echoPrevented: bool)
    ensures NoAfterEvent(s, Hide(s, prevented, echoPrevented))
  {
    if prevented {
      ExtendedWithoutAfter(s, Hide(s, prevented, echoPrevented), [Emit(SlHide)]);
    } else {
      HideTraceCounts(false, echoPrevented, s.open);
      ExtendedWithoutAfter(s, Hide(s, prevented, echoPrevented), HideTrace(false, echoPrevented, s.open));
    }
  }

  lemma AssignOpenEmitsNoAfter(s: DialogState, value: bool, prevented: bool)
    ensures NoAfterEvent(s, AssignOpen(s, value, prevented))
  {
    ShowEmitsNoAfter(s.(open := true), prevented);
    HideEmitsNoAfter(s.(open := false), prevented, prevented);
  }

  lemma OverlayClickEmitsNoAfter(s: DialogState, dismissPrevented: bool, prevented: bool, echoPrevented: bool)
    ensures NoAfterEvent(s, OverlayClick(s, dismissPrevented, prevented, echoPrevented))
  {
    var r := Record(s, [Emit(SlOverlayDismiss)]);
    ExtendedWithoutAfter(s, r, [Emit(SlOverlayDismiss)]);
    HideEmitsNoAfter(r, prevented, echoPrevented);
  }

  lemma OpenInputsEmitNoAfter(s: DialogState, i: Input)
    requires i.ShowCall? || i.HideCall? || i.AssignOpenInput? || i.Frame?
    ensures NoAfterEvent(s, Step(s, i))
  {
    match i
    case ShowCall(p) => ShowEmitsNoAfter(s, p);
    case HideCall(p, e) => HideEmitsNoAfter(s, p, e);
    case AssignOpenInput(v, p) => AssignOpenEmitsNoAfter(s, v, p);
    case Frame(p) => AssignOpenEmitsNoAfter(s.(pendingFrame := false), true, p);
  }

  lemma DismissInputsEmitNoAfter(s: DialogState, i: Input)
    requires i.KeyDownInput? || i.OverlayClickInput? || i.CloseClickInput?
    ensures NoAfterEvent(s, Step(s, i))
  {
    match i
    case KeyDownInput(key, p, e) => HideEmitsNoAfter(s, p, e);
    case OverlayClickInput(d, p, e) => OverlayClickEmitsNoAfter(s, d, p, e);
    case CloseClickInput(p, e) => HideEmitsNoAfter(s, p, e);
  }

  lemma OtherInputsEmitNoAfter(s: DialogState, i: Input)
    requires i.DocumentFocusIn? || i.DidLoadInput? || i.DidUnloadInput? || i.SlotsInput?
    ensures NoAfterEvent(s, Step(s, i))
  {
    match i
    case DocumentFocusIn(isHost) => ExtendedWithoutAfter(s, Record(s, [FocusPanel]), [FocusPanel]);
    case DidLoadInput(p) => ShowEmitsNoAfter(s, p);
    case DidUnloadInput => ExtendedWithoutAfter(s, Teardown(s), [UnlockScroll]);
    case SlotsInput(f) =>
  }

  /**
   * sl-after-show and sl-after-hide come only from the end of the panel's transition: every
   * other input, whatever the listeners answer, emits neither.
   */
  lemma OnlyTransitionEndEmitsAfter(s: DialogState, i: Input)
    requires !i.TransitionEndInput?
    ensures Added(s, Step(s, i), Emit(SlAfterShow)) == 0
    ensures Added(s, Step(s, i), Emit(SlAfterHide)) == 0
  {
    if i.ShowCall? || i.HideCall? || i.AssignOpenInput? || i.Frame? {
      OpenInputsEmitNoAfter(s, i);
    } else if i.KeyDownInput? || i.OverlayClickInput? || i.CloseClickInput? {
      DismissInputsEmitNoAfter(s, i);
    } else {
      OtherInputsEmitNoAfter(s, i);
    }
  }
}
