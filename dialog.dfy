/**
 * The sl-dialog component as an object whose methods change its fields in place. Every
 * assignment to `open` goes through SetOpen, which runs the watcher when the value changes,
 * so show() and hide() re-enter themselves exactly as the component does.
 *
 * Each method is proved to leave the object in the state the matching function of module
 * Lifecycle gives; the properties of those functions are proved there.
 */
module Dialogs {
  import opened Lifecycle
  import ComponentIds
  import Rendering

  class Dialog {
    var open: bool
    /** The `hidden` flag of the base wrapper (`this.dialog.hidden`). */
    var hidden: bool
    var hasFooter: bool
    /** Whether `handleDocumentFocusIn` is registered for `focusin` on the document. */
    var focusListener: bool
    /** Whether the callback `() => this.open = true` is waiting for the next frame. */
    var pendingFrame: bool
    var labelText: string
    var noHeader: bool
    const componentId: string
    /** Everything emitted and called on the host so far. */
    ghost var trace: seq<Action>

    ghost function State(): DialogState
      reads this
    {
      DialogState(open, hidden, hasFooter, focusListener, pendingFrame, trace)
    }

    /** Creation takes the next value of the page-wide id counter. */
    constructor (ids: ComponentIds.IdCounter, open: bool, labelText: string, noHeader: bool)
      modifies ids
      ensures ids.last == old(ids.last) + 1
      ensures componentId == ComponentIds.ComponentId(ids.last)
      ensures State() == Initial(open)
      ensures this.labelText == labelText && this.noHeader == noHeader
    {
      var n := ids.Next();
      componentId := ComponentIds.ComponentId(n);
      this.open := open;
      hidden := true;
      hasFooter := false;
      focusListener := false;
      pendingFrame := false;
      this.labelText := labelText;
      this.noHeader := noHeader;
      trace := [];
    }

    /** What the current state renders. */
    function View(): (v: Rendering.View)
      reads this
      ensures "dialog--open" in Rendering.ActiveClasses(v.classes) <==> open
      ensures "dialog--has-footer" in Rendering.ActiveClasses(v.classes) <==> hasFooter
      ensures v.panel.ariaHidden == !open
      ensures v.panel.ariaLabel == (if noHeader then Rendering.Some(labelText) else Rendering.None)
      ensures !noHeader ==> v.panel.ariaLabeledby == Rendering.Some(componentId + "-title")
    {
      Rendering.Render(open, hasFooter, labelText, noHeader, componentId)
    }

    /** `show()`: false when sl-show is prevented. */
    method Show(prevented: bool) returns (ok: bool)
      modifies this`hidden, this`pendingFrame, this`focusListener, this`trace
      ensures ok == !prevented
      ensures State() == Lifecycle.Show(old(State()), prevented)
    {
      trace := trace + [Emit(SlShow)];
      if prevented {
        return false;
      }
      hidden := false;
      pendingFrame := true;
      trace := trace + [LockScroll];
      focusListener := true;
      return true;
    }

    /**
     * `hide()`: false when sl-hide is prevented. `echoPrevented` answers the sl-hide of the
     * nested hide() that the watcher runs when this call closes an open dialog.
     */
    method Hide(prevented: bool, echoPrevented: bool) returns (ok: bool)
      modifies this`open, this`hidden, this`pendingFrame, this`focusListener, this`trace
      decreases if open then 5 else 2
      ensures ok == !prevented
      ensures State() == Lifecycle.Hide(old(State()), prevented, echoPrevented)
    {
      trace := trace + [Emit(SlHide)];
      if prevented {
        return false;
      }
      SetOpen(false, echoPrevented);
      trace := trace + [UnlockScroll];
      focusListener := false;
      return true;
    }

    /**
     * An assignment `open = value`, from outside or from the component itself; `prevented`
     * answers the pre-event of the show() or hide() the watcher runs on a change.
     */
    method SetOpen(value: bool, prevented: bool)
      modifies this`open, this`hidden, this`pendingFrame, this`focusListener, this`trace
      decreases if open != value then 4 else 1
      ensures State() == AssignOpen(old(State()), value, prevented)
    {
      if open != value {
        open := value;
        HandleOpenChange(prevented);
      }
    }

    /** The `open` watcher. */
    method HandleOpenChange(prevented: bool)
      modifies this`open, this`hidden, this`pendingFrame, this`focusListener, this`trace
      decreases 3
      ensures old(open) ==> State() == Lifecycle.Show(old(State()), prevented)
      ensures !old(open) ==> State() == Lifecycle.Hide(old(State()), prevented, prevented)
    {
      if open {
        var _ := Show(prevented);
      } else {
        var _ := Hide(prevented, prevented);
      }
    }

    /** The browser renders a frame and runs the queued callback, if there is one. */
    method AnimationFrame(prevented: bool)
      modifies this`open, this`hidden, this`pendingFrame, this`focusListener, this`trace
      ensures State() == Lifecycle.AnimationFrame(old(State()), prevented)
    {
      if pendingFrame {
        pendingFrame := false;
        SetOpen(true, prevented);
      }
    }

    /** `componentWillLoad`: reads the footer slot once. */
    method ComponentWillLoad(footerSlotted: bool)
      modifies this`hasFooter
      ensures State() == Lifecycle.UpdateSlots(old(State()), footerSlotted)
    {
      UpdateSlots(footerSlotted);
    }

    /** `updateSlots`, given the answer of `hasSlot(host, 'footer')`. */
    method UpdateSlots(footerSlotted: bool)
      modifies this`hasFooter
      ensures State() == Lifecycle.UpdateSlots(old(State()), footerSlotted)
    {
      hasFooter := footerSlotted;
    }

    method ComponentDidLoad(prevented: bool)
      modifies this`hidden, this`pendingFrame, this`focusListener, this`trace
      ensures State() == DidLoad(old(State()), prevented)
    {
      if open {
        var _ := Show(prevented);
      }
    }

    method ComponentDidUnload()
      modifies this`trace
      ensures State() == Teardown(old(State()))
    {
      trace := trace + [UnlockScroll];
    }

    method HandleCloseClick(prevented: bool, echoPrevented: bool)
      modifies this`open, this`hidden, this`pendingFrame, this`focusListener, this`trace
      ensures State() == Lifecycle.Hide(old(State()), prevented, echoPrevented)
    {
      var _ := Hide(prevented, echoPrevented);
    }

    /**
     * `nearestDialogIsHost`: `target.closest('sl-dialog')` is this host. Focus inside an sl-dialog
     * nested in this one's content has a different nearest dialog and is redirected too.
     */
    method HandleDocumentFocusIn(nearestDialogIsHost: bool)
      modifies this`trace
      ensures State() == FocusIn(old(State()), nearestDialogIsHost)
    {
      if !nearestDialogIsHost {
        trace := trace + [FocusPanel];
      }
    }

    method HandleKeyDown(key: string, prevented: bool, echoPrevented: bool)
      modifies this`open, this`hidden, this`pendingFrame, this`focusListener, this`trace
      ensures State() == KeyDown(old(State()), key, prevented, echoPrevented)
    {
      if key == "Escape" {
        var _ := Hide(prevented, echoPrevented);
      }
    }

    method HandleOverlayClick(dismissPrevented: bool, prevented: bool, echoPrevented: bool)
      modifies this`open, this`hidden, this`pendingFrame, this`focusListener, this`trace
      ensures State() == OverlayClick(old(State()), dismissPrevented, prevented, echoPrevented)
    {
      trace := trace + [Emit(SlOverlayDismiss)];
      if !dismissPrevented {
        var _ := Hide(prevented, echoPrevented);
      }
    }

    /** `targetClasses`: the class list of the element whose transition ended. */
    method HandleTransitionEnd(propertyName: string, targetClasses: set<string>)
      modifies this`hidden, this`trace
      ensures State() == TransitionEnd(old(State()), propertyName, targetClasses)
    {
      if propertyName == "opacity" && "dialog__panel" in targetClasses {
        hidden := !open;
        if open {
          trace := trace + [Emit(SlAfterShow)];
        } else {
          trace := trace + [Emit(SlAfterHide)];
        }
        if open {
          trace := trace + [FocusPanel];
        }
      }
    }
  }
}
