/** The server-side slot manager (CollapsibleSplitLayout.java): two logical
    child references, the collapsibility flags, the splitter position and the
    single pending style-update registration, all layered on the generated
    element of module GeneratedLayout. */
module SplitLayout {
  import opened Wrappers
  import opened Tree
  import opened GeneratedLayout

  datatype Orientation = Horizontal | Vertical

  /** `orientation.toString().toLowerCase()`: the property value written for `o`. */
  function Token(o: Orientation): string {
    match o
    case Horizontal => "horizontal"
    case Vertical => "vertical"
  }

  /** Upper-cases the ASCII letters of one character. */
  function UpperChar(c: char): char {
    if 'a' <= c <= 'z' then (c as int - 32) as char else c
  }

  /** `String.toUpperCase`, restricted to ASCII letters. */
  function ToUpper(s: string): (r: string)
    ensures |r| == |s|
    ensures forall i :: 0 <= i < |s| ==> r[i] == UpperChar(s[i])
  {
    if s == [] then [] else [UpperChar(s[0])] + ToUpper(s[1..])
  }

  /** `Orientation.valueOf(s.toUpperCase())`: the constant whose name is `s`
      up to case, or the exception `valueOf` throws. */
  function ParseOrientation(s: string): (r: Result<Orientation, Exception>)
    ensures forall o :: r == Success(o) <==> ToUpper(s) == ToUpper(Token(o))
    ensures r.Failure? ==> r.error == NoEnumConstant(ToUpper(s))
  {
    UpperToken(Horizontal);
    UpperToken(Vertical);
    var u := ToUpper(s);
    if u == "HORIZONTAL" then Success(Horizontal)
    else if u == "VERTICAL" then Success(Vertical)
    else Failure(NoEnumConstant(u))
  }

  /** The upper-cased token of `o` is the name of the constant. */
  lemma UpperToken(o: Orientation)
    ensures ToUpper(Token(o)) == if o == Horizontal then "HORIZONTAL" else "VERTICAL"
  {
    match o
    case Horizontal => assert ToUpper(Token(o)) == "HORIZONTAL";
    case Vertical => assert ToUpper(Token(o)) == "VERTICAL";
  }

  /** Reading back the token written for `o` gives `o`. */
  lemma ParseToken(o: Orientation)
    ensures ParseOrientation(Token(o)) == Success(o)
  {
  }

  /** A `beforeClientResponse` registration, identified by a ticket number. */
  datatype Registration = Registration(ticket: nat)

  /** The layout's state. `divs` numbers the `Div`s the layout creates and
      `tickets` numbers its registrations, so that freshly made ones are
      distinguishable from all earlier ones. */
  datatype Layout = Layout(
    element: Element,
    primary: Option<Component>,
    secondary: Option<Component>,
    primaryCollapsible: bool,
    secondaryCollapsible: bool,
    splitterPosition: Option<real>,
    pending: Option<Registration>,
    attached: bool,
    divs: nat,
    tickets: nat)

  /** The representation invariant every operation keeps. */
  predicate Valid(l: Layout) {
    && WellFormed(l.element)
    && AllAllocated(l.element.children, l.divs)
    && (l.primary.Some? ==> Allocated(l.primary.value, l.divs))
    && (l.secondary.Some? ==> Allocated(l.secondary.value, l.divs))
    && (l.primary.Some? && l.secondary.Some? ==> l.primary.value != l.secondary.value)
    && (l.pending.Some? ==> l.pending.value.ticket < l.tickets)
  }

  /** The two-slot invariant: exactly two children, the first slotted primary
      and the second secondary, each being the logical component when there
      is one. */
  predicate Rendered(l: Layout) {
    var cs := l.element.children;
    && |cs| == 2
    && cs[0] != cs[1]
    && SlotOf(l.element, cs[0]) == Some(Primary)
    && SlotOf(l.element, cs[1]) == Some(Secondary)
    && (l.primary.Some? ==> cs[0] == l.primary.value)
    && (l.secondary.Some? ==> cs[1] == l.secondary.value)
  }

  /** The component occupying the DOM slot for `c`: `c` itself, or a new
      empty `Div` when `c` is null; the second result is the updated serial
      counter. */
  function Occupant(c: Option<Component>, divs: nat): (r: (Component, nat))
    ensures c.Some? ==> r == (c.value, divs)
    ensures c.None? ==> r.0.Div? && r.0.items == [] && !Allocated(r.0, divs)
    ensures c.None? ==> Allocated(r.0, r.1)
    ensures divs <= r.1
    ensures c.Some? && Allocated(c.value, divs) ==> Allocated(r.0, r.1)
  {
    if c.Some? then (c.value, divs) else (Div(divs, []), divs + 1)
  }

  /** The element after `removeAll` followed by adding `p` to the primary
      and `s` to the secondary slot. */
  function Slotted(e: Element, p: Component, s: Component): (r: Element)
    requires p != s
    ensures WellFormed(r)
    ensures r.children == [p, s]
    ensures SlotOf(r, p) == Some(Primary) && SlotOf(r, s) == Some(Secondary)
    ensures forall c :: c in e.children && c != p && c != s ==> SlotOf(r, c) == None
    ensures forall c :: c !in e.children && c != p && c != s ==> SlotOf(r, c) == SlotOf(e, c)
    ensures r.orientation == e.orientation
    ensures r.collapsibleComponents == e.collapsibleComponents
    ensures r.themeNames == e.themeNames
  {
    var e0 := RemoveAll(e);
    var e1 := AddToSlot(e0, [p], Primary);
    AddToSlot(e1, [s], Secondary)
  }

  /** `setComponents`: clears the element and re-adds the primary and the
      secondary occupant. */
  function SetComponents(l: Layout): (r: Layout)
    requires Valid(l)
    ensures Valid(r) && Rendered(r)
    ensures r == l.(element := r.element, divs := r.divs)
    ensures l.divs <= r.divs
    ensures l.primary.None? ==> var p := r.element.children[0];
      p.Div? && p.items == [] && !Allocated(p, l.divs)
    ensures l.secondary.None? ==> var s := r.element.children[1];
      s.Div? && s.items == [] && !Allocated(s, l.divs)
    ensures forall c :: c in l.element.children && c !in r.element.children ==>
      SlotOf(r.element, c) == None
    ensures forall c :: c !in l.element.children && c !in r.element.children ==>
      SlotOf(r.element, c) == SlotOf(l.element, c)
    ensures r.element.orientation == l.element.orientation
    ensures r.element.collapsibleComponents == l.element.collapsibleComponents
    ensures r.element.themeNames == l.element.themeNames
  {
    var (p, d1) := Occupant(l.primary, l.divs);
    assert l.secondary.Some? ==> Allocated(l.secondary.value, d1) by {
      if l.secondary.Some? { AllocatedMono(l.secondary.value, l.divs, d1); }
    }
    var (s, d2) := Occupant(l.secondary, d1);
    assert p != s && Allocated(p, d2) by {
      AllocatedMono(p, d1, d2);
      if l.secondary.Some? && l.primary.None? {
        FreshDivIsNew(l.secondary.value, l.divs, []);
      }
    }
    l.(element := Slotted(l.element, p, s), divs := d2)
  }

  /** The logical component for an `addToPrimary`/`addToSecondary` call:
      a single component as it is, otherwise a new `Div` holding all of them. */
  function Wrap(cs: seq<Component>, divs: nat): (r: (Component, nat))
    requires AllAllocated(cs, divs)
    ensures |cs| == 1 ==> r == (cs[0], divs)
    ensures |cs| != 1 ==> r.0 == Div(divs, cs) && r.1 == divs + 1
    ensures Allocated(r.0, r.1)
  {
    if |cs| == 1 then (cs[0], divs)
    else
      assert AllAllocated(cs, divs + 1) by {
        forall i | 0 <= i < |cs| ensures Allocated(cs[i], divs + 1) {
          AllocatedMono(cs[i], divs, divs + 1);
        }
      }
      (Div(divs, cs), divs + 1)
  }

  /** The logical reference for `slot`. */
  function Ref(l: Layout, slot: Slot): Option<Component> {
    if slot == Primary then l.primary else l.secondary
  }

  function OtherSlot(slot: Slot): Slot {
    if slot == Primary then Secondary else Primary
  }

  /** The first half of `addToPrimary`/`addToSecondary`, up to the call of
      `setComponents`: the reference for `slot` becomes the wrapped
      arguments. Wrapping appends the arguments to the new `Div`, which moves
      any of them that is a child out of the element. */
  function Prepare(l: Layout, cs: seq<Component>, slot: Slot): (r: Layout)
    requires Valid(l) && NoDup(cs) && AllAllocated(cs, l.divs)
    requires Ref(l, OtherSlot(slot)).Some? ==> Ref(l, OtherSlot(slot)).value !in cs
    ensures Valid(r)
    ensures Ref(r, slot) == Some(Wrap(cs, l.divs).0)
    ensures Ref(r, OtherSlot(slot)) == Ref(l, OtherSlot(slot))
    ensures l.divs <= r.divs
    ensures |cs| == 1 ==> r.element == l.element
    ensures |cs| != 1 ==> r.element == Detach(l.element, cs)
    ensures r == l.(primary := r.primary, secondary := r.secondary, element := r.element, divs := r.divs)
    ensures |cs| != 1 ==> forall x :: x in cs ==>
      Allocated(x, r.divs) && Some(x) != r.primary && Some(x) != r.secondary
  {
    var (c, d) := Wrap(cs, l.divs);
    var e := if |cs| == 1 then l.element else Detach(l.element, cs);
    var other := Ref(l, OtherSlot(slot));
    var r := if slot == Primary then l.(primary := Some(c), element := e, divs := d)
             else l.(secondary := Some(c), element := e, divs := d);
    assert Valid(r) by {
      if other.Some? {
        AllocatedMono(other.value, l.divs, d);
        if |cs| != 1 { FreshDivIsNew(other.value, l.divs, cs); }
      }
      forall i | 0 <= i < |e.children|
        ensures Allocated(e.children[i], d)
      {
        assert e.children[i] in l.element.children;
        var j :| 0 <= j < |l.element.children| && l.element.children[j] == e.children[i];
        AllocatedMono(l.element.children[j], l.divs, d);
      }
    }
    assert |cs| != 1 ==> forall x :: x in cs ==>
      Allocated(x, d) && Some(x) != r.primary && Some(x) != r.secondary by {
      if |cs| != 1 {
        forall x | x in cs
          ensures Allocated(x, d) && Some(x) != r.primary && Some(x) != r.secondary
        {
          var k :| 0 <= k < |cs| && cs[k] == x;
          AllocatedMono(x, l.divs, d);
          FreshDivIsNew(x, l.divs, cs);
        }
      }
    }
    r
  }

  /** The index of `slot` among the two rendered children. */
  function SlotIndex(slot: Slot): nat {
    if slot == Primary then 0 else 1
  }

  /** Assigning a slot leaves a placeholder in the other slot when that one
      has no logical component. */
  lemma AssignPlaceholder(l: Layout, cs: seq<Component>, slot: Slot)
    requires Valid(l) && NoDup(cs) && AllAllocated(cs, l.divs)
    requires Ref(l, OtherSlot(slot)).Some? ==> Ref(l, OtherSlot(slot)).value !in cs
    ensures var r := SetComponents(Prepare(l, cs, slot));
      Ref(l, OtherSlot(slot)).None? ==> var o := r.element.children[SlotIndex(OtherSlot(slot))];
        o.Div? && o.items == [] && !Allocated(o, l.divs)
  {
    var l' := Prepare(l, cs, slot);
    var o := SetComponents(l').element.children[SlotIndex(OtherSlot(slot))];
    if Ref(l, OtherSlot(slot)).None? && Allocated(o, l.divs) {
      AllocatedMono(o, l.divs, l'.divs);
    }
  }

  /** The wrapped arguments end up outside the element, each keeping the
      `slot` attribute it had. */
  lemma AssignMoved(l: Layout, cs: seq<Component>, slot: Slot)
    requires Valid(l) && NoDup(cs) && AllAllocated(cs, l.divs)
    requires Ref(l, OtherSlot(slot)).Some? ==> Ref(l, OtherSlot(slot)).value !in cs
    ensures var r := SetComponents(Prepare(l, cs, slot));
      |cs| != 1 ==> forall x :: x in cs ==>
        x !in r.element.children && SlotOf(r.element, x) == SlotOf(l.element, x)
  {
    var l' := Prepare(l, cs, slot);
    var r := SetComponents(l');
    if |cs| != 1 {
      forall x | x in cs
        ensures x !in r.element.children && SlotOf(r.element, x) == SlotOf(l.element, x)
      {
        assert x !in l'.element.children;
      }
    }
  }

  /** Former children that are not among the wrapped arguments and are no
      longer children have lost their `slot` attribute. */
  lemma AssignStale(l: Layout, cs: seq<Component>, slot: Slot)
    requires Valid(l) && NoDup(cs) && AllAllocated(cs, l.divs)
    requires Ref(l, OtherSlot(slot)).Some? ==> Ref(l, OtherSlot(slot)).value !in cs
    ensures var r := SetComponents(Prepare(l, cs, slot));
      forall x :: x in l.element.children && x !in r.element.children && (|cs| == 1 || x !in cs) ==>
        SlotOf(r.element, x) == None
  {
  }

  /** `addToPrimary(components...)`. Reattachment of a component that is
      also the secondary one is outside the model, hence the last requires. */
  function AddToPrimary(l: Layout, cs: seq<Component>): (r: Layout)
    requires Valid(l) && NoDup(cs) && AllAllocated(cs, l.divs)
    requires l.secondary.Some? ==> l.secondary.value !in cs
    ensures Valid(r) && Rendered(r)
    ensures r.primary.Some?
    ensures |cs| == 1 ==> r.primary == Some(cs[0])
    ensures |cs| != 1 ==> r.primary.value.Div? && r.primary.value.items == cs &&
                          !Allocated(r.primary.value, l.divs)
    ensures l.secondary.None? ==> var o := r.element.children[1];
      o.Div? && o.items == [] && !Allocated(o, l.divs)
    ensures |cs| != 1 ==> forall x :: x in cs ==>
      x !in r.element.children && SlotOf(r.element, x) == SlotOf(l.element, x)
    ensures forall x :: x in l.element.children && x !in r.element.children && (|cs| == 1 || x !in cs) ==>
      SlotOf(r.element, x) == None
    ensures r.element.orientation == l.element.orientation
    ensures r.element.collapsibleComponents == l.element.collapsibleComponents
    ensures r.element.themeNames == l.element.themeNames
    ensures r == l.(primary := r.primary, element := r.element, divs := r.divs)
  {
    AssignPlaceholder(l, cs, Primary);
    AssignMoved(l, cs, Primary);
    AssignStale(l, cs, Primary);
    SetComponents(Prepare(l, cs, Primary))
  }

  /** `addToSecondary(components...)`, the mirror image of `AddToPrimary`. */
  function AddToSecondary(l: Layout, cs: seq<Component>): (r: Layout)
    requires Valid(l) && NoDup(cs) && AllAllocated(cs, l.divs)
    requires l.primary.Some? ==> l.primary.value !in cs
    ensures Valid(r) && Rendered(r)
    ensures r.secondary.Some?
    ensures |cs| == 1 ==> r.secondary == Some(cs[0])
    ensures |cs| != 1 ==> r.secondary.value.Div? && r.secondary.value.items == cs &&
                          !Allocated(r.secondary.value, l.divs)
    ensures l.primary.None? ==> var o := r.element.children[0];
      o.Div? && o.items == [] && !Allocated(o, l.divs)
    ensures |cs| != 1 ==> forall x :: x in cs ==>
      x !in r.element.children && SlotOf(r.element, x) == SlotOf(l.element, x)
    ensures forall x :: x in l.element.children && x !in r.element.children && (|cs| == 1 || x !in cs) ==>
      SlotOf(r.element, x) == None
    ensures r.element.orientation == l.element.orientation
    ensures r.element.collapsibleComponents == l.element.collapsibleComponents
    ensures r.element.themeNames == l.element.themeNames
    ensures r == l.(secondary := r.secondary, element := r.element, divs := r.divs)
  {
    AssignPlaceholder(l, cs, Secondary);
    AssignMoved(l, cs, Secondary);
    AssignStale(l, cs, Secondary);
    SetComponents(Prepare(l, cs, Secondary))
  }

  /** Re-adding the current primary component together with another one
      moves it into the new `Div`, out of `removeAll`'s reach, so it keeps
      its `slot="primary"` attribute. */
  lemma WrappedPrimaryKeepsSlot(l: Layout, b: Component)
    requires Valid(l) && Rendered(l) && l.primary.Some?
    requires b != l.primary.value && Allocated(b, l.divs)
    requires l.secondary.Some? ==> l.secondary.value != b
    ensures var a := l.primary.value; var r := AddToPrimary(l, [a, b]);
      a !in r.element.children && SlotOf(r.element, a) == Some(Primary)
  {
    var a := l.primary.value;
    assert a == l.element.children[0];
  }

  /** The constructor without arguments: orientation "horizontal", no
      children, no `collapsible-components` attribute, no position. */
  function New(): (r: Layout)
    ensures Valid(r)
    ensures r.element.children == [] && r.element.collapsibleComponents == None
    ensures GetOrientation(r) == Success(Horizontal)
    ensures r.primary == None && r.secondary == None
    ensures !r.primaryCollapsible && !r.secondaryCollapsible
    ensures r.splitterPosition == None && r.pending == None && !r.attached
    ensures r.divs == 0 && r.tickets == 0
  {
    ParseToken(Horizontal);
    var l := Layout(EmptyElement(), None, None, false, false, None, None, false, 0, 0);
    SetOrientation(l, Some(Horizontal)).value
  }

  /** The first half of the two-component constructor: `New()` followed
      by `addToPrimary(p)`. */
  method NewWithPrimary(p: Component) returns (r: Layout)
    requires Allocated(p, 0)
    ensures Valid(r) && Rendered(r)
    ensures r.primary == Some(p) && r.secondary == None
    ensures r.element.children[0] == p
    ensures var o := r.element.children[1]; o.Div? && o.items == []
    ensures GetOrientation(r) == Success(Horizontal)
    ensures !r.primaryCollapsible && !r.secondaryCollapsible
    ensures r.element.collapsibleComponents == None
    ensures r.splitterPosition == None && r.pending == None && !r.attached
  {
    var l := New();
    assert NoDup([p]) && AllAllocated([p], l.divs);
    r := AddToPrimary(l, [p]);
  }

  /** The constructor with the two initial components. */
  method NewWith(p: Component, s: Component) returns (r: Layout)
    requires p != s && Allocated(p, 0) && Allocated(s, 0)
    ensures Valid(r) && Rendered(r)
    ensures r.primary == Some(p) && r.secondary == Some(s)
    ensures r.element.children == [p, s]
    ensures GetOrientation(r) == Success(Horizontal)
    ensures !r.primaryCollapsible && !r.secondaryCollapsible
    ensures r.element.collapsibleComponents == None
    ensures r.splitterPosition == None && r.pending == None && !r.attached
  {
    var l := NewWithPrimary(p);
    assert AllAllocated([s], l.divs) by {
      AllocatedMono(s, 0, l.divs);
    }
    r := AddToSecondary(l, [s]);
  }

  /** The value of the `collapsible-components` attribute for the two flags. */
  function CollapsibleValue(primary: bool, secondary: bool): (v: string)
    ensures primary <==> (v == "primary" || v == "primaryAndSecondary")
    ensures secondary <==> (v == "secondary" || v == "primaryAndSecondary")
  {
    if primary && secondary then "primaryAndSecondary"
    else if primary then "primary"
    else if secondary then "secondary"
    else "none"
  }

  /** How the attribute is read: the pair of flags it stands for, or `None`
      for a value outside the four. */
  function CollapsibleFlags(attr: string): Option<(bool, bool)> {
    if attr == "none" then Some((false, false))
    else if attr == "primary" then Some((true, false))
    else if attr == "secondary" then Some((false, true))
    else if attr == "primaryAndSecondary" then Some((true, true))
    else None
  }

  /** The attribute value determines the flags, and every readable value is
      produced by some pair of flags. */
  lemma CollapsibleValueRoundTrip(primary: bool, secondary: bool, attr: string)
    ensures CollapsibleFlags(CollapsibleValue(primary, secondary)) == Some((primary, secondary))
    ensures CollapsibleFlags(attr).Some? ==>
      CollapsibleValue(CollapsibleFlags(attr).value.0, CollapsibleFlags(attr).value.1) == attr
  {
  }

  /** `updateCollapsibleComponents`: the attribute is replaced by the value
      for the current flags. */
  function UpdateCollapsibleComponents(l: Layout): (r: Layout)
    ensures r.element.collapsibleComponents.Some?
    ensures CollapsibleFlags(r.element.collapsibleComponents.value) ==
      Some((l.primaryCollapsible, l.secondaryCollapsible))
    ensures r == l.(element := l.element.(collapsibleComponents := r.element.collapsibleComponents))
  {
    l.(element := l.element.(collapsibleComponents :=
      Some(CollapsibleValue(l.primaryCollapsible, l.secondaryCollapsible))))
  }

  /** `setPrimaryComponentCollapsible`. */
  function SetPrimaryCollapsible(l: Layout, b: bool): (r: Layout)
    ensures r.primaryCollapsible == b && r.secondaryCollapsible == l.secondaryCollapsible
    ensures r.element.collapsibleComponents.Some?
    ensures CollapsibleFlags(r.element.collapsibleComponents.value) == Some((b, l.secondaryCollapsible))
    ensures r == l.(primaryCollapsible := b,
                    element := l.element.(collapsibleComponents := r.element.collapsibleComponents))
  {
    UpdateCollapsibleComponents(l.(primaryCollapsible := b))
  }

  /** `setSecondaryComponentCollapsible`. */
  function SetSecondaryCollapsible(l: Layout, b: bool): (r: Layout)
    ensures r.secondaryCollapsible == b && r.primaryCollapsible == l.primaryCollapsible
    ensures r.element.collapsibleComponents.Some?
    ensures CollapsibleFlags(r.element.collapsibleComponents.value) == Some((l.primaryCollapsible, b))
    ensures r == l.(secondaryCollapsible := b,
                    element := l.element.(collapsibleComponents := r.element.collapsibleComponents))
  {
    UpdateCollapsibleComponents(l.(secondaryCollapsible := b))
  }

  /** `setOrientation(Orientation)`: null throws before anything changes. */
  function SetOrientation(l: Layout, o: Option<Orientation>): (r: Result<Layout, Exception>)
    ensures o.None? <==> r.Failure?
    ensures r.Failure? ==> r.error == NullOrientation
    ensures r.Success? ==> GetOrientation(r.value) == Success(o.value)
    ensures r.Success? ==> r.value == l.(element := l.element.(orientation := r.value.element.orientation))
  {
    if o.None? then Failure(NullOrientation)
    else
      ParseToken(o.value);
      Success(l.(element := SetOrientationString(l.element, Some(Token(o.value)))))
  }

  /** `getOrientation`: the stored property read back as a constant; a
      stored value naming neither constant makes it throw. */
  function GetOrientation(l: Layout): (r: Result<Orientation, Exception>)
    ensures forall o :: r == Success(o) <==> ToUpper(OrientationString(l.element)) == ToUpper(Token(o))
    ensures r.Failure? ==> r.error == NoEnumConstant(ToUpper(OrientationString(l.element)))
  {
    ParseOrientation(OrientationString(l.element))
  }

  /** Registers a new style update, cancelling the pending one. */
  function RequestStylesUpdate(l: Layout): (r: Layout)
    requires Valid(l)
    ensures Valid(r)
    ensures r.pending.Some? && r.pending != l.pending
    ensures r == l.(pending := r.pending, tickets := r.tickets)
  {
    l.(pending := Some(Registration(l.tickets)), tickets := l.tickets + 1)
  }

  /** The attach listener: the layout is attached and requests an update. */
  function Attach(l: Layout): (r: Layout)
    requires Valid(l)
    ensures Valid(r) && r.attached
    ensures r.pending.Some? && r.pending != l.pending
    ensures r == l.(attached := true, pending := r.pending, tickets := r.tickets)
  {
    RequestStylesUpdate(l.(attached := true))
  }

  /** `setSplitterPosition`: the raw value is stored; an update is requested
      only when the layout is attached. */
  function SetSplitterPosition(l: Layout, position: real): (r: Layout)
    requires Valid(l)
    ensures Valid(r)
    ensures r.splitterPosition == Some(position)
    ensures l.attached ==> r.pending.Some? && r.pending != l.pending
    ensures !l.attached ==> r == l.(splitterPosition := Some(position))
    ensures r == l.(splitterPosition := Some(position), pending := r.pending, tickets := r.tickets)
  {
    var l' := l.(splitterPosition := Some(position));
    if l.attached then RequestStylesUpdate(l') else l'
  }

  /** The element a style is written to: the logical component, or the
      element's child at an index when the logical component is null. */
  datatype StyleTarget = OnComponent(c: Component) | OnChildAt(index: nat)

  datatype Style = Width | Height

  /** The client-visible effects of a style update. */
  datatype Effect =
    | ClearSlottedFlex                                     // the `flex` clearing script
    | SetStyle(target: StyleTarget, style: Style, percent: real)

  /** `setInnerComponentStyle`: where a style for `slot` goes. */
  function InnerStyleTarget(l: Layout, slot: Slot): (t: StyleTarget)
    ensures slot == Primary && l.primary.Some? ==> t == OnComponent(l.primary.value)
    ensures slot == Secondary && l.secondary.Some? ==> t == OnComponent(l.secondary.value)
    ensures slot == Primary && l.primary.None? ==> t == OnChildAt(0)
    ensures slot == Secondary && l.secondary.None? ==> t == OnChildAt(1)
  {
    var c := if slot == Primary then l.primary else l.secondary;
    if c.Some? then OnComponent(c.value) else OnChildAt(if slot == Primary then 0 else 1)
  }

  /** The element a target designates in `e`, if any: the script writing
      to a child index does nothing when there is no such child. */
  function Resolve(e: Element, t: StyleTarget): (c: Option<Component>)
    ensures t.OnComponent? ==> c == Some(t.c)
    ensures t.OnChildAt? ==> (c.Some? <==> t.index < |e.children|)
    ensures t.OnChildAt? && c.Some? ==> c.value == e.children[t.index]
  {
    match t
    case OnComponent(c) => Some(c)
    case OnChildAt(i) => if i < |e.children| then Some(e.children[i]) else None
  }

  /** On a rendered layout both ways of addressing a pane reach the child in
      that pane's slot. */
  lemma InnerStyleReachesSlot(l: Layout, slot: Slot)
    requires Rendered(l)
    ensures var c := Resolve(l.element, InnerStyleTarget(l, slot));
      c == Some(l.element.children[if slot == Primary then 0 else 1]) &&
      SlotOf(l.element, c.value) == Some(slot)
  {
  }

  /** `Math.min(Math.max(p, 0), 100)`. */
  function Clamp(p: real): (r: real)
    ensures 0.0 <= r <= 100.0
    ensures p < 0.0 ==> r == 0.0
    ensures p > 100.0 ==> r == 100.0
    ensures 0.0 <= p <= 100.0 ==> r == p
  {
    var lo := if p > 0.0 then p else 0.0;
    if lo < 100.0 then lo else 100.0
  }

  /** `updateStylesForSplitterPosition`: nothing without a position;
      otherwise the clamped share for the primary pane and the rest for the
      secondary one, as heights when vertical and widths otherwise. */
  function UpdateStyles(l: Layout): (r: Result<seq<Effect>, Exception>)
    ensures l.splitterPosition.None? ==> r == Success([])
    ensures l.splitterPosition.Some? ==> (r.Success? <==> GetOrientation(l).Success?)
    ensures l.splitterPosition.Some? && r.Success? ==>
      var p := l.splitterPosition.value;
      var o := GetOrientation(l).value;
      && |r.value| == 2
      && r.value[0].SetStyle? && r.value[1].SetStyle?
      && r.value[0].target == InnerStyleTarget(l, Primary)
      && r.value[1].target == InnerStyleTarget(l, Secondary)
      && r.value[1].style == r.value[0].style
      && (r.value[0].style == Height <==> o == Vertical)
      && 0.0 <= r.value[0].percent <= 100.0
      && 0.0 <= r.value[1].percent <= 100.0
      && r.value[0].percent + r.value[1].percent == 100.0
      && (0.0 <= p <= 100.0 ==> r.value[0].percent == p)
      && (p < 0.0 ==> r.value[0].percent == 0.0)
      && (p > 100.0 ==> r.value[0].percent == 100.0)
  {
    if l.splitterPosition.None? then Success([])
    else
      var o :- GetOrientation(l);
      var primary := Clamp(l.splitterPosition.value);
      var style := if o == Vertical then Height else Width;
      Success([SetStyle(InnerStyleTarget(l, Primary), style, primary),
               SetStyle(InnerStyleTarget(l, Secondary), style, 100.0 - primary)])
  }

  /** The state after the host's pre-response pass, and what was sent. */
  datatype Flushed = Flushed(layout: Layout, effects: seq<Effect>)

  /** The host runs the pending registration, if there is one: the flex
      clearing script, then the style update; the registration is dropped. */
  function Flush(l: Layout): (r: Result<Flushed, Exception>)
    ensures l.pending.None? ==> r == Success(Flushed(l, []))
    ensures l.pending.Some? ==> (r.Success? <==> UpdateStyles(l).Success?)
    ensures l.pending.Some? && r.Success? ==>
      && r.value.layout == l.(pending := None)
      && r.value.effects == [ClearSlottedFlex] + UpdateStyles(l).value
  {
    if l.pending.None? then Success(Flushed(l, []))
    else
      var styles :- UpdateStyles(l);
      Success(Flushed(l.(pending := None), [ClearSlottedFlex] + styles))
  }

  /** After a flush nothing is pending, so a second flush sends nothing. */
  lemma FlushRunsOnce(l: Layout)
    requires Flush(l).Success?
    ensures Flush(l).value.layout.pending == None
    ensures Flush(Flush(l).value.layout) == Success(Flushed(Flush(l).value.layout, []))
  {
  }

  /** Two positions set before the host's pass give one update, the same as
      setting only the second: one flex clearing and the second value's styles. */
  lemma CoalescedPositions(l: Layout, first: real, second: real)
    requires Valid(l) && l.attached
    ensures var twice := SetSplitterPosition(SetSplitterPosition(l, first), second);
      var once := SetSplitterPosition(l, second);
      && twice.pending.Some?
      && Flush(twice).Success? == Flush(once).Success?
      && (Flush(twice).Success? ==>
            && Flush(twice).value.effects == Flush(once).value.effects
            && |Flush(twice).value.effects| == 3
            && Flush(twice).value.layout == Flush(once).value.layout.(tickets := twice.tickets))
  {
    var twice := SetSplitterPosition(SetSplitterPosition(l, first), second);
    var once := SetSplitterPosition(l, second);
    assert twice == once.(pending := twice.pending, tickets := twice.tickets);
    assert UpdateStyles(twice) == UpdateStyles(once);
  }

  /** The outcome of the layout's `remove`. */
  datatype LayoutRemoval = LayoutRemoval(layout: Layout, thrown: Option<Exception>)

  /** `remove(components...)`: delegates to the element and leaves the
      logical components alone. */
  function Remove(l: Layout, cs: seq<Component>): (r: LayoutRemoval)
    requires Valid(l)
    ensures Valid(r.layout)
    ensures r.layout == l.(element := r.layout.element)
    ensures r.thrown.Some? ==> r.thrown.value.NotAChild? && r.thrown.value.c in cs
  {
    var removal := GeneratedLayout.Remove(l.element, cs);
    assert AllAllocated(removal.element.children, l.divs) by {
      forall i | 0 <= i < |removal.element.children|
        ensures Allocated(removal.element.children[i], l.divs)
      {
        assert removal.element.children[i] in l.element.children;
      }
    }
    LayoutRemoval(l.(element := removal.element), removal.thrown)
  }

  /** `removeAll`: the element loses all its children; the logical
      components are kept. */
  function RemoveAllChildren(l: Layout): (r: Layout)
    requires Valid(l)
    ensures Valid(r)
    ensures r.element.children == []
    ensures forall c :: c in l.element.children ==> SlotOf(r.element, c) == None
    ensures r == l.(element := r.element)
  {
    l.(element := RemoveAll(l.element))
  }

  /** Removing the primary component through `remove` leaves the secondary
      pane's child as the only child while the logical primary component is
      still set: the desynchronisation the source documents. */
  lemma RemovePrimaryDesyncs(l: Layout)
    requires Valid(l) && Rendered(l) && l.primary.Some?
    ensures var r := Remove(l, [l.primary.value]);
      && r.thrown == None
      && r.layout.element.children == [l.element.children[1]]
      && r.layout.primary == l.primary
      && l.primary.value !in r.layout.element.children
      && !Rendered(r.layout)
  {
    var p := l.primary.value;
    RemoveChildren(l.element, [p]);
    var r := Remove(l, [p]);
    var kids := r.layout.element.children;
    assert l.element.children[1] in kids;
    assert |kids| == 1;
    assert kids == [l.element.children[1]];
  }
}
