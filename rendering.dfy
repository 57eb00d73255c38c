/**
 * The attributes that sl-dialog's render derives from its state: the class map of the base
 * wrapper, the accessibility attributes of the panel and the header with its title.
 */
module Rendering {

  datatype Option<T> = None | Some(value: T)

  /** The header, rendered unless `noHeader`: the title span's id and its text. */
  datatype Header = Header(titleId: string, titleText: string)

  /** The attributes of the panel element that depend on state. */
  datatype Panel = Panel(
    ariaHidden: bool,
    ariaLabel: Option<string>,
    ariaLabeledby: Option<string>,
    header: Option<Header>)

  /** What one render produces: the base wrapper's class map and the panel. */
  datatype View = View(classes: map<string, bool>, panel: Panel)

  /** U+FEFF, the invisible character that keeps an empty title from collapsing. */
  const ZeroWidthNoBreakSpace: char := 65279 as char

  /** The classes a class map switches on. */
  function ActiveClasses(m: map<string, bool>): set<string> {
    set k | k in m && m[k]
  }

  function ClassMap(open: bool, hasFooter: bool): map<string, bool> {
    map["dialog" := true, "dialog--open" := open, "dialog--has-footer" := hasFooter]
  }

  function TitleId(componentId: string): string {
    componentId + "-title"
  }

  /** `label || String.fromCharCode(65279)`: an empty label is falsy. */
  function TitleText(labelText: string): (t: string)
    ensures t != []
    ensures labelText != [] ==> t == labelText
    ensures labelText == [] ==> t == [ZeroWidthNoBreakSpace]
  {
    if labelText != [] then labelText else [ZeroWidthNoBreakSpace]
  }

  function Render(open: bool, hasFooter: bool, labelText: string, noHeader: bool, componentId: string): (v: View)
    ensures ActiveClasses(v.classes) <= {"dialog", "dialog--open", "dialog--has-footer"}
    ensures "dialog" in ActiveClasses(v.classes)
    ensures "dialog--open" in ActiveClasses(v.classes) <==> open
    ensures "dialog--has-footer" in ActiveClasses(v.classes) <==> hasFooter
    ensures v.panel.ariaHidden == !open
    // exactly one of aria-label and aria-labeledby is set
    ensures v.panel.ariaLabel.Some? != v.panel.ariaLabeledby.Some?
    ensures v.panel.ariaLabel.Some? <==> noHeader
    ensures noHeader ==> v.panel.ariaLabel.value == labelText
    // aria-labeledby names the title span, which is rendered exactly when it is used
    ensures v.panel.header.Some? <==> v.panel.ariaLabeledby.Some?
    ensures v.panel.ariaLabeledby.Some? ==>
      v.panel.ariaLabeledby.value == v.panel.header.value.titleId == componentId + "-title"
    ensures v.panel.header.Some? ==> v.panel.header.value.titleText == TitleText(labelText)
  {
    var classes := ClassMap(open, hasFooter);
    assert "dialog" in ActiveClasses(classes);
    assert open ==> "dialog--open" in ActiveClasses(classes);
    assert hasFooter ==> "dialog--has-footer" in ActiveClasses(classes);
    View(classes,
      Panel(
        !open,
        if noHeader then Some(labelText) else None,
        if !noHeader then Some(TitleId(componentId)) else None,
        if !noHeader then Some(Header(TitleId(componentId), TitleText(labelText))) else None))
  }
}
