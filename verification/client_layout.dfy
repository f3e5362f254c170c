/** The client-side element `<collapsible-vaadin-split-layout>`
    (collapsible-vaadin-split-layout.js): slot assignment by child index,
    the two collapse flags driven by the toggle buttons and by dragging the
    splitter, and the flex-basis clamp. Layout measurements
    (`getBoundingClientRect`) are inputs. */
module ClientLayout {
  import opened Wrappers
  import opened Tree

  /** A light-DOM child of the element and its `slot` attribute. */
  datatype Child = Child(node: Component, slot: Option<Slot>)

  /** The size of the part being dragged, recorded when a drag starts. */
  datatype StartSize = StartSize(container: real, primary: real, secondary: real)

  /** The element's properties and the private fields the handlers use. */
  datatype Client = Client(
    orientation: string,
    collapsibleComponents: string,
    primaryCollapsed: bool,
    secondaryCollapsed: bool,
    children: seq<Child>,
    primaryChild: Option<Component>,
    secondaryChild: Option<Component>,
    startSize: Option<StartSize>)

  /** A bounding client rectangle, reduced to its two extents. */
  datatype Rect = Rect(width: real, height: real)

  /** `getBoundingClientRect()[size]` with `size` chosen by the orientation. */
  function Extent(orientation: string, rect: Rect): (x: real)
    ensures orientation == "vertical" ==> x == rect.height
    ensures orientation != "vertical" ==> x == rect.width
  {
    if orientation == "vertical" then rect.height else rect.width
  }

  /** Never both panes collapsed. */
  predicate NotBothCollapsed(s: Client) {
    !(s.primaryCollapsed && s.secondaryCollapsed)
  }

  /** The property defaults of a new element holding `children`, before
      `_processChildren` has run. */
  function Init(children: seq<Child>): (s: Client)
    ensures s.orientation == "horizontal" && s.collapsibleComponents == "none"
    ensures !s.primaryCollapsed && !s.secondaryCollapsed
    ensures NotBothCollapsed(s)
    ensures s.children == children && s.startSize == None
  {
    Client("horizontal", "none", false, false, children, None, None, None)
  }

  /** The slot `_processChildren` gives the child at index `i`. */
  function SlotAt(i: nat): Option<Slot> {
    if i == 0 then Some(Primary) else if i == 1 then Some(Secondary) else None
  }

  /** The `forEach` of `_processChildren` from index `from` on: each child
      keeps its node and gets the slot for its index. */
  function Reslot(cs: seq<Child>, from: nat): (r: seq<Child>)
    ensures |r| == |cs|
    ensures forall k :: 0 <= k < |cs| ==> r[k].node == cs[k].node
    ensures forall k :: 0 <= k < |cs| && from + k == 0 ==> r[k].slot == Some(Primary)
    ensures forall k :: 0 <= k < |cs| && from + k == 1 ==> r[k].slot == Some(Secondary)
    ensures forall k :: 0 <= k < |cs| && from + k >= 2 ==> r[k].slot == None
    decreases |cs|
  {
    if cs == [] then []
    else [Child(cs[0].node, SlotAt(from))] + Reslot(cs[1..], from + 1)
  }

  /** `_processChildren`: the first child becomes the primary one, the
      second the secondary one, every later child loses its slot. With fewer
      than two children the references not reached keep their old values. */
  function ProcessChildren(s: Client): (r: Client)
    ensures |r.children| == |s.children|
    ensures forall k :: 0 <= k < |s.children| ==> r.children[k].node == s.children[k].node
    ensures |s.children| > 0 ==> r.children[0].slot == Some(Primary)
    ensures |s.children| > 1 ==> r.children[1].slot == Some(Secondary)
    ensures forall k :: 2 <= k < |s.children| ==> r.children[k].slot == None
    ensures r.primaryChild == if |s.children| > 0 then Some(s.children[0].node) else s.primaryChild
    ensures r.secondaryChild == if |s.children| > 1 then Some(s.children[1].node) else s.secondaryChild
    ensures r == s.(children := r.children, primaryChild := r.primaryChild,
                    secondaryChild := r.secondaryChild)
  {
    var cs := s.children;
    s.(children := Reslot(cs, 0),
       primaryChild := if |cs| > 0 then Some(cs[0].node) else s.primaryChild,
       secondaryChild := if |cs| > 1 then Some(cs[1].node) else s.secondaryChild)
  }

  /** Running `_processChildren` again changes nothing. */
  lemma ProcessChildrenIdempotent(s: Client)
    ensures ProcessChildren(ProcessChildren(s)) == ProcessChildren(s)
  {
    var r := ProcessChildren(s);
    var r2 := ProcessChildren(r);
    assert forall k :: 0 <= k < |r.children| ==> r2.children[k] == r.children[k];
  }

  /** What a toggle click does besides the flags. */
  datatype ToggleEffect =
    | Flags                      // only the flags changed
    | Reopen(child: Component)   // the re-shown pane was narrower than 1px: flex-basis 20px
    | NoChildError               // the pane reference is undefined: TypeError after the flag change

  datatype Toggled = Toggled(client: Client, effect: ToggleEffect)

  /** `_onToggleLeft`: a collapsed secondary pane is shown again, otherwise
      the primary pane collapses. `measured` is the secondary child's
      rectangle, read only in the first case. */
  function OnToggleLeft(s: Client, measured: Rect): (r: Toggled)
    ensures NotBothCollapsed(r.client)
    ensures s.secondaryCollapsed ==> !r.client.secondaryCollapsed &&
                                     r.client.primaryCollapsed == s.primaryCollapsed
    ensures !s.secondaryCollapsed ==> r.client.primaryCollapsed && !r.client.secondaryCollapsed
    ensures r.effect.Reopen? <==>
      s.secondaryCollapsed && s.secondaryChild.Some? && Extent(s.orientation, measured) < 1.0
    ensures r.effect.Reopen? ==> r.effect.child == s.secondaryChild.value
    ensures r.effect.NoChildError? <==> s.secondaryCollapsed && s.secondaryChild.None?
    ensures r.client == s.(primaryCollapsed := r.client.primaryCollapsed,
                           secondaryCollapsed := r.client.secondaryCollapsed)
  {
    if s.secondaryCollapsed then
      var s' := s.(secondaryCollapsed := false);
      if s.secondaryChild.None? then Toggled(s', NoChildError)
      else if Extent(s.orientation, measured) < 1.0 then Toggled(s', Reopen(s.secondaryChild.value))
      else Toggled(s', Flags)
    else Toggled(s.(primaryCollapsed := true), Flags)
  }

  /** `_onToggleRight`: a collapsed primary pane is shown again, otherwise
      the secondary pane collapses. */
  function OnToggleRight(s: Client, measured: Rect): (r: Toggled)
    ensures NotBothCollapsed(r.client)
    ensures s.primaryCollapsed ==> !r.client.primaryCollapsed &&
                                   r.client.secondaryCollapsed == s.secondaryCollapsed
    ensures !s.primaryCollapsed ==> r.client.secondaryCollapsed && !r.client.primaryCollapsed
    ensures r.effect.Reopen? <==>
      s.primaryCollapsed && s.primaryChild.Some? && Extent(s.orientation, measured) < 1.0
    ensures r.effect.Reopen? ==> r.effect.child == s.primaryChild.value
    ensures r.effect.NoChildError? <==> s.primaryCollapsed && s.primaryChild.None?
    ensures r.client == s.(primaryCollapsed := r.client.primaryCollapsed,
                           secondaryCollapsed := r.client.secondaryCollapsed)
  {
    if s.primaryCollapsed then
      var s' := s.(primaryCollapsed := false);
      if s.primaryChild.None? then Toggled(s', NoChildError)
      else if Extent(s.orientation, measured) < 1.0 then Toggled(s', Reopen(s.primaryChild.value))
      else Toggled(s', Flags)
    else Toggled(s.(secondaryCollapsed := true), Flags)
  }

  /** The same element with the two panes' roles exchanged. */
  function Mirror(s: Client): Client {
    s.(primaryCollapsed := s.secondaryCollapsed, secondaryCollapsed := s.primaryCollapsed,
       primaryChild := s.secondaryChild, secondaryChild := s.primaryChild)
  }

  /** The right toggle is the left toggle seen in a mirror. */
  lemma ToggleRightMirrorsLeft(s: Client, measured: Rect)
    ensures var l := OnToggleLeft(Mirror(s), measured);
      OnToggleRight(s, measured) == Toggled(Mirror(l.client), l.effect)
  {
  }

  /** A click on one of the two toggle buttons. */
  datatype Click = Left | Right

  /** The flags after a series of clicks; `measured` is the rectangle the
      handlers read, the same for every click. */
  function Clicks(s: Client, clicks: seq<Click>, measured: Rect): Client
    decreases |clicks|
  {
    if clicks == [] then s
    else
      var next := if clicks[0] == Left then OnToggleLeft(s, measured) else OnToggleRight(s, measured);
      Clicks(next.client, clicks[1..], measured)
  }

  /** No series of clicks collapses both panes when they were not both
      collapsed before. */
  lemma {:induction false} ClicksKeepNotBoth(s: Client, clicks: seq<Click>, measured: Rect)
    requires NotBothCollapsed(s)
    ensures NotBothCollapsed(Clicks(s, clicks, measured))
    decreases |clicks|
  {
    if clicks != [] {
      var next := if clicks[0] == Left then OnToggleLeft(s, measured) else OnToggleRight(s, measured);
      ClicksKeepNotBoth(next.client, clicks[1..], measured);
    }
  }

  /** The value `_setFlexBasis` substitutes for an exact zero. */
  const TinyBasis: real := 0.000001

  /** `_setFlexBasis`: the basis clamped into [0, containerSize], with an
      exact zero replaced by a tiny positive value. */
  function FlexBasis(flexBasis: real, containerSize: real): (r: real)
    ensures r > 0.0
    ensures flexBasis <= 0.0 || containerSize <= 0.0 ==> r == TinyBasis
    ensures 0.0 < flexBasis <= containerSize ==> r == flexBasis
    ensures 0.0 < containerSize < flexBasis ==> r == containerSize
  {
    var lower := if flexBasis < containerSize then flexBasis else containerSize;
    var clamped := if lower > 0.0 then lower else 0.0;
    if clamped == 0.0 then TinyBasis else clamped
  }

  /** The state of a Polymer `track` gesture event. */
  datatype TrackState = Start | Track | End

  /** What the handle's track event carries. */
  datatype TrackEvent = TrackEvent(state: TrackState, dx: real, dy: real)

  /** The rectangles the handler reads at that moment: the element, its
      splitter and the two panes. */
  datatype Measures = Measures(host: Rect, splitter: Rect, primary: Rect, secondary: Rect)

  /** The outcome of a track event: the new state, the flex bases written
      to the primary and secondary pane, whether `splitter-dragend` was
      dispatched, and whether the handler hit an undefined start size. */
  datatype Tracked = Tracked(
    client: Client,
    basis: Option<(real, real)>,
    dragEnd: bool,
    startMissing: bool)

  /** `_onHandleTrack`: `rtl` is whether the `dir` attribute is "rtl". */
  function OnHandleTrack(s: Client, ev: TrackEvent, rtl: bool, m: Measures): (r: Tracked)
    ensures s.primaryChild.None? || s.secondaryChild.None? ==> r == Tracked(s, None, false, false)
    ensures r.client == s.(primaryCollapsed := r.client.primaryCollapsed,
                           secondaryCollapsed := r.client.secondaryCollapsed,
                           startSize := r.client.startSize)
    ensures NotBothCollapsed(s) ==> NotBothCollapsed(r.client)
    ensures ev.state == Start && s.primaryChild.Some? && s.secondaryChild.Some? ==>
      && r.client == s.(startSize := r.client.startSize)
      && r.client.startSize.Some?
      && r.client.startSize.value.container == Extent(s.orientation, m.host) - Extent(s.orientation, m.splitter)
      && r.client.startSize.value.primary == Extent(s.orientation, m.primary)
      && r.client.startSize.value.secondary == Extent(s.orientation, m.secondary)
      && r.basis == None && !r.dragEnd
    ensures ev.state != Start && s.primaryChild.Some? && s.secondaryChild.Some? ==>
      if s.startSize.None? then r == Tracked(s, None, false, true)
      else
        && r.basis.Some? && r.basis.value.0 > 0.0 && r.basis.value.1 > 0.0
        && (var start := s.startSize.value;
            var moved := if s.orientation == "vertical" then ev.dy else if rtl then -ev.dx else ev.dx;
            r.basis.value == (FlexBasis(start.primary + moved, start.container),
                              FlexBasis(start.secondary - moved, start.container)))
        && (r.dragEnd <==> ev.state == End)
        && (ev.state == Track ==> !r.client.primaryCollapsed && !r.client.secondaryCollapsed &&
                                  r.client.startSize == s.startSize)
        && (ev.state == End ==> r.client.startSize == None)
        && (ev.state == End ==> (r.client.primaryCollapsed <==>
              s.collapsibleComponents != "none" && Extent(s.orientation, m.primary) < 1.0))
        && (ev.state == End ==> (r.client.secondaryCollapsed <==>
              s.collapsibleComponents != "none" && Extent(s.orientation, m.primary) >= 1.0 &&
              Extent(s.orientation, m.secondary) < 1.0))
  {
    if s.primaryChild.None? || s.secondaryChild.None? then Tracked(s, None, false, false)
    else if ev.state == Start then
      var start := StartSize(
        Extent(s.orientation, m.host) - Extent(s.orientation, m.splitter),
        Extent(s.orientation, m.primary),
        Extent(s.orientation, m.secondary));
      Tracked(s.(startSize := Some(start)), None, false, false)
    else if s.startSize.None? then Tracked(s, None, false, true)
    else
      var start := s.startSize.value;
      var distance := if s.orientation == "vertical" then ev.dy else ev.dx;
      var isRtl := s.orientation != "vertical" && rtl;
      var dirDistance := if isRtl then -distance else distance;
      var basis := (FlexBasis(start.primary + dirDistance, start.container),
                    FlexBasis(start.secondary - dirDistance, start.container));
      var moved := s.(primaryCollapsed := false, secondaryCollapsed := false);
      if ev.state == End then
        var ended := moved.(startSize := None);
        var collapsed :=
          if s.collapsibleComponents == "none" then ended
          else if Extent(s.orientation, m.primary) < 1.0 then ended.(primaryCollapsed := true)
          else if Extent(s.orientation, m.secondary) < 1.0 then ended.(secondaryCollapsed := true)
          else ended;
        Tracked(collapsed, Some(basis), true, false)
      else Tracked(moved, Some(basis), false, false)
  }
}
