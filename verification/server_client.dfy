/** How the server-side layout and the client-side element meet: the
    children and attributes the server renders are what `_processChildren`
    and the drag handler work on. */
module ServerClient {
  import opened Wrappers
  import opened Tree
  import opened GeneratedLayout
  import opened SplitLayout
  import opened ClientLayout

  /** The element's light-DOM children as the server renders them, each with
      its `slot` attribute. */
  function Render(e: Element): (cs: seq<Child>)
    ensures |cs| == |e.children|
    ensures forall i :: 0 <= i < |cs| ==> cs[i] == Child(e.children[i], SlotOf(e, e.children[i]))
  {
    seq(|e.children|, i requires 0 <= i < |e.children| => Child(e.children[i], SlotOf(e, e.children[i])))
  }

  /** On a rendered layout the client keeps the server's slot assignment and
      its pane references are the server's occupants. */
  lemma RenderedLayoutAgrees(l: Layout, c: Client)
    requires Rendered(l)
    ensures var r := ProcessChildren(c.(children := Render(l.element)));
      && r.children == Render(l.element)
      && r.primaryChild == Some(l.element.children[0])
      && r.secondaryChild == Some(l.element.children[1])
      && (l.primary.Some? ==> r.primaryChild == l.primary)
      && (l.secondary.Some? ==> r.secondaryChild == l.secondary)
  {
    var r := ProcessChildren(c.(children := Render(l.element)));
    assert r.children[0] == Render(l.element)[0];
    assert r.children[1] == Render(l.element)[1];
  }

  /** After the primary component is removed through `remove`, the client
      makes the former secondary occupant its primary pane and moves it to
      the primary slot, while the server still names the removed component
      as primary and the child's server-side slot is still "secondary". */
  lemma RemovedPrimaryShiftsPanes(l: Layout, c: Client)
    requires Valid(l) && Rendered(l) && l.primary.Some?
    ensures var after := SplitLayout.Remove(l, [l.primary.value]).layout;
      var r := ProcessChildren(c.(children := Render(after.element)));
      && after.primary == l.primary
      && r.primaryChild == Some(l.element.children[1])
      && r.children == [Child(l.element.children[1], Some(Primary))]
      && SlotOf(after.element, l.element.children[1]) == Some(Secondary)
  {
    RemovePrimaryDesyncs(l);
    var after := SplitLayout.Remove(l, [l.primary.value]).layout;
    assert l.element.children[1] != l.primary.value;
    RemoveKeepsOthers(l.element, [l.primary.value], l.element.children[1]);
    var r := ProcessChildren(c.(children := Render(after.element)));
    assert r.children[0] == Child(l.element.children[1], Some(Primary));
  }

  /** The drag handler collapses panes only when the attribute the server
      writes is not "none", which is when at least one flag is set. */
  lemma DragCollapseNeedsAFlag(primary: bool, secondary: bool)
    ensures CollapsibleValue(primary, secondary) != "none" <==> primary || secondary
  {
  }

  /** The public orientation setter writes the token the client compares
      with, so the client measures along the axis the server sizes. */
  lemma OrientationAxisAgrees(l: Layout, o: Orientation, m: Rect)
    ensures var e := SetOrientation(l, Some(o)).value.element;
      Extent(e.orientation, m) == if o == Vertical then m.height else m.width
  {
  }
}
