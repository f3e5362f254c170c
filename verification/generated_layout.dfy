/** The server-side mirror of the `<collapsible-vaadin-split-layout>` element
    (GeneratedCollapsibleVaadinSplitLayout.java): slotted children, the
    `orientation` property, the `collapsible-components` attribute and the
    theme names. */
module GeneratedLayout {
  import opened Wrappers
  import opened Tree

  /** The two theme variants and their names (CollapsibleSplitLayoutVariant.java). */
  datatype Variant = LumoMinimal | LumoSmall

  function VariantName(v: Variant): string {
    match v
    case LumoMinimal => "minimal"
    case LumoSmall => "small"
  }

  /** The names of the given variants, as a set. */
  function VariantNames(vs: seq<Variant>): (names: set<string>)
    ensures forall v :: v in vs ==> VariantName(v) in names
    ensures forall n :: n in names ==> exists v :: v in vs && VariantName(v) == n
  {
    set v | v in vs :: VariantName(v)
  }

  /** The element as the server sees it. `slotAttr` holds the `slot`
      attribute of every component that carries one: the attribute lives on
      the child element, so it outlives removal from this element unless it
      is cleared explicitly. */
  datatype Element = Element(
    children: seq<Component>,
    slotAttr: map<Component, Slot>,
    orientation: string,
    collapsibleComponents: Option<string>,
    themeNames: set<string>)

  /** A freshly constructed element: no children, no attributes. */
  function EmptyElement(): Element {
    Element([], map[], "", None, {})
  }

  /** The `slot` attribute of `c`, if it has one. */
  function SlotOf(e: Element, c: Component): Option<Slot> {
    if c in e.slotAttr then Some(e.slotAttr[c]) else None
  }

  /** Children are never repeated. */
  predicate WellFormed(e: Element) {
    NoDup(e.children)
  }

  /** Tags `c` with `slot` and appends it as the last child. */
  function Append(e: Element, c: Component, slot: Slot): Element {
    e.(children := e.children + [c], slotAttr := e.slotAttr[c := slot])
  }

  /** `addToPrimary` / `addToSecondary` of the generated class: each
      component, in argument order, is tagged with the slot and appended. */
  function AddToSlot(e: Element, cs: seq<Component>, slot: Slot): (r: Element)
    requires NoDup(cs)
    requires forall i :: 0 <= i < |cs| ==> cs[i] !in e.children
    ensures r.children == e.children + cs
    ensures forall c :: c in cs ==> SlotOf(r, c) == Some(slot)
    ensures forall c :: c !in cs ==> SlotOf(r, c) == SlotOf(e, c)
    ensures r.orientation == e.orientation
    ensures r.collapsibleComponents == e.collapsibleComponents
    ensures r.themeNames == e.themeNames
    decreases |cs|
  {
    if cs == [] then e
    else
      var e' := Append(e, cs[0], slot);
      assert forall i :: 0 <= i < |cs[1..]| ==> cs[1..][i] == cs[i + 1];
      var r := AddToSlot(e', cs[1..], slot);
      assert cs == [cs[0]] + cs[1..];
      r
  }

  /** Appending fresh components keeps the children free of repeats. */
  lemma AddToSlotWellFormed(e: Element, cs: seq<Component>, slot: Slot)
    requires WellFormed(e) && NoDup(cs)
    requires forall i :: 0 <= i < |cs| ==> cs[i] !in e.children
    ensures WellFormed(AddToSlot(e, cs, slot))
  {
    var r := AddToSlot(e, cs, slot);
    forall i, j | 0 <= i < j < |r.children|
      ensures r.children[i] != r.children[j]
    {
      if j < |e.children| {
      } else if i >= |e.children| {
        assert r.children[i] == cs[i - |e.children|];
        assert r.children[j] == cs[j - |e.children|];
      } else {
        assert r.children[j] == cs[j - |e.children|];
        assert r.children[i] in e.children;
      }
    }
  }

  /** Position of the first occurrence of `c` in `s`. */
  function IndexOf(s: seq<Component>, c: Component): (k: nat)
    requires c in s
    ensures k < |s| && s[k] == c
    ensures c !in s[..k]
  {
    if s[0] == c then 0 else
      assert s == [s[0]] + s[1..];
      var k := IndexOf(s[1..], c);
      assert s[..k + 1] == [s[0]] + s[1..][..k];
      k + 1
  }

  /** `t` is `s` with the element at position `k` taken out, the rest in order. */
  predicate DeletedAt(s: seq<Component>, k: nat, t: seq<Component>) {
    && k < |s|
    && |t| == |s| - 1
    && forall i :: 0 <= i < |t| ==> t[i] == if i < k then s[i] else s[i + 1]
  }

  /** Detaches the child `c` and clears its `slot` attribute. */
  function RemoveChild(e: Element, c: Component): (r: Element)
    requires c in e.children
    ensures |r.children| == |e.children| - 1
    ensures SlotOf(r, c) == None
    ensures forall x :: x != c ==> SlotOf(r, x) == SlotOf(e, x)
    ensures r.orientation == e.orientation
    ensures r.collapsibleComponents == e.collapsibleComponents
    ensures r.themeNames == e.themeNames
  {
    var k := IndexOf(e.children, c);
    e.(children := e.children[..k] + e.children[k + 1..], slotAttr := e.slotAttr - {c})
  }

  /** The child is taken out at its first position and the others keep
      their order. */
  lemma RemoveChildAt(e: Element, c: Component)
    requires c in e.children
    ensures DeletedAt(e.children, IndexOf(e.children, c), RemoveChild(e, c).children)
  {
  }

  /** Removing a child of a well-formed element removes every occurrence of it
      and keeps every other child. */
  lemma RemoveChildMembership(e: Element, c: Component)
    requires WellFormed(e) && c in e.children
    ensures WellFormed(RemoveChild(e, c))
    ensures c !in RemoveChild(e, c).children
    ensures forall x :: x != c ==> (x in RemoveChild(e, c).children <==> x in e.children)
    ensures |RemoveChild(e, c).children| == |e.children| - 1
  {
    var r := RemoveChild(e, c);
    var k := IndexOf(e.children, c);
    RemoveChildAt(e, c);
    forall i, j | 0 <= i < j < |r.children|
      ensures r.children[i] != r.children[j]
    {
      var i' := if i < k then i else i + 1;
      var j' := if j < k then j else j + 1;
      assert r.children[i] == e.children[i'] && r.children[j] == e.children[j'];
    }
    forall i | 0 <= i < |r.children|
      ensures r.children[i] != c
    {
      var i' := if i < k then i else i + 1;
      assert r.children[i] == e.children[i'] && i' != k;
    }
    forall x | x != c && x in e.children
      ensures x in r.children
    {
      var i :| 0 <= i < |e.children| && e.children[i] == x;
      assert i != k;
      if i < k { assert r.children[i] == x; } else { assert r.children[i - 1] == x; }
    }
  }

  /** The outcome of `remove`: the element afterwards and the exception, if
      one was thrown part-way. */
  datatype Removal = Removal(element: Element, thrown: Option<Exception>)

  /** `remove(components...)`: components are detached one at a time; the
      first one that is not a child at its turn throws, and those before it
      stay removed. */
  function Remove(e: Element, cs: seq<Component>): (r: Removal)
    requires WellFormed(e)
    ensures WellFormed(r.element)
    ensures r.thrown.None? || (r.thrown.value.NotAChild? && r.thrown.value.c in cs &&
                               r.thrown.value.c !in r.element.children)
    ensures forall x :: x in r.element.children ==> x in e.children
    ensures r.element.orientation == e.orientation
    ensures r.element.collapsibleComponents == e.collapsibleComponents
    ensures r.element.themeNames == e.themeNames
    decreases |cs|
  {
    if cs == [] then Removal(e, None)
    else if cs[0] in e.children then
      RemoveChildMembership(e, cs[0]);
      Remove(RemoveChild(e, cs[0]), cs[1..])
    else Removal(e, Some(NotAChild(cs[0])))
  }

  /** Components that are not named keep their membership and their `slot`
      attribute, whatever `remove` throws. */
  lemma {:induction false} RemoveKeepsOthers(e: Element, cs: seq<Component>, x: Component)
    requires WellFormed(e) && x !in cs
    ensures x in Remove(e, cs).element.children <==> x in e.children
    ensures SlotOf(Remove(e, cs).element, x) == SlotOf(e, x)
    decreases |cs|
  {
    if cs != [] && cs[0] in e.children {
      RemoveChildMembership(e, cs[0]);
      assert x !in cs[1..];
      RemoveKeepsOthers(RemoveChild(e, cs[0]), cs[1..], x);
    }
  }

  /** After removing the first of distinct current children, the others are
      still distinct current children. */
  lemma RemoveHead(e: Element, cs: seq<Component>)
    requires WellFormed(e) && NoDup(cs) && cs != []
    requires forall i :: 0 <= i < |cs| ==> cs[i] in e.children
    ensures WellFormed(RemoveChild(e, cs[0])) && NoDup(cs[1..])
    ensures forall i :: 0 <= i < |cs[1..]| ==> cs[1..][i] in RemoveChild(e, cs[0]).children
  {
    var e' := RemoveChild(e, cs[0]);
    RemoveChildMembership(e, cs[0]);
    forall i | 0 <= i < |cs[1..]|
      ensures cs[1..][i] in e'.children
    {
      assert cs[1..][i] == cs[i + 1] && cs[i + 1] != cs[0];
    }
  }

  /** Removing distinct current children succeeds, detaches exactly them and
      clears exactly their `slot` attributes. */
  lemma {:induction false} RemoveChildren(e: Element, cs: seq<Component>)
    requires WellFormed(e) && NoDup(cs)
    requires forall i :: 0 <= i < |cs| ==> cs[i] in e.children
    ensures Remove(e, cs).thrown == None
    ensures forall x :: x in Remove(e, cs).element.children <==> x in e.children && x !in cs
    ensures |Remove(e, cs).element.children| == |e.children| - |cs|
    ensures forall x :: x in cs ==> SlotOf(Remove(e, cs).element, x) == None
    decreases |cs|
  {
    if cs != [] {
      var e' := RemoveChild(e, cs[0]);
      RemoveChildMembership(e, cs[0]);
      RemoveHead(e, cs);
      RemoveChildren(e', cs[1..]);
      assert cs[0] !in cs[1..];
      RemoveKeepsOthers(e', cs[1..], cs[0]);
      assert Remove(e, cs) == Remove(e', cs[1..]);
      assert cs == [cs[0]] + cs[1..];
    }
  }

  /** `remove` is not all-or-nothing: when `x` is not a child, the components
      before it are removed all the same and `x` is reported. */
  lemma {:induction false} RemoveStopsAtStranger(e: Element, pre: seq<Component>, x: Component, post: seq<Component>)
    requires WellFormed(e) && NoDup(pre)
    requires forall i :: 0 <= i < |pre| ==> pre[i] in e.children
    requires x !in e.children
    ensures Remove(e, pre + [x] + post) == Removal(Remove(e, pre).element, Some(NotAChild(x)))
    decreases |pre|
  {
    var cs := pre + [x] + post;
    if pre == [] {
      assert cs == [x] + post;
    } else {
      var e' := RemoveChild(e, pre[0]);
      RemoveHead(e, pre);
      assert x !in e'.children by {
        RemoveChildMembership(e, pre[0]);
      }
      RemoveStopsAtStranger(e', pre[1..], x, post);
      assert cs[0] == pre[0] && cs[1..] == pre[1..] + [x] + post;
      RemoveStep(e, cs);
      RemoveStep(e, pre);
    }
  }

  /** One step of `remove` on a current child. */
  lemma RemoveStep(e: Element, cs: seq<Component>)
    requires WellFormed(e) && cs != [] && cs[0] in e.children
    ensures WellFormed(RemoveChild(e, cs[0]))
    ensures Remove(e, cs) == Remove(RemoveChild(e, cs[0]), cs[1..])
  {
    RemoveChildMembership(e, cs[0]);
  }

  /** A single non-child throws and leaves the element as it was. */
  lemma RemoveStrangerUnchanged(e: Element, x: Component)
    requires WellFormed(e) && x !in e.children
    ensures Remove(e, [x]) == Removal(e, Some(NotAChild(x)))
  {
    RemoveStopsAtStranger(e, [], x, []);
  }

  /** `removeAll`: every child loses its `slot` attribute and is detached. */
  function RemoveAll(e: Element): (r: Element)
    ensures r.children == []
    ensures forall c :: c in e.children ==> SlotOf(r, c) == None
    ensures forall c :: c !in e.children ==> SlotOf(r, c) == SlotOf(e, c)
    ensures r.orientation == e.orientation
    ensures r.collapsibleComponents == e.collapsibleComponents
    ensures r.themeNames == e.themeNames
  {
    e.(children := [], slotAttr := e.slotAttr - set c | c in e.children)
  }

  /** `s` without the components of `cs`, the rest in order. */
  function Without(s: seq<Component>, cs: seq<Component>): (r: seq<Component>)
    ensures forall c :: c in r <==> c in s && c !in cs
    ensures NoDup(s) ==> NoDup(r)
    ensures |r| <= |s|
    decreases |s|
  {
    if s == [] then []
    else
      var rest := Without(s[1..], cs);
      assert forall c :: c in s <==> c == s[0] || c in s[1..] by {
        assert s == [s[0]] + s[1..];
      }
      assert NoDup(s) ==> NoDup(s[1..]) && s[0] !in s[1..] by {
        if NoDup(s) {
          forall i, j | 0 <= i < j < |s[1..]| ensures s[1..][i] != s[1..][j] {
            assert s[1..][i] == s[i + 1] && s[1..][j] == s[j + 1];
          }
          forall i | 0 <= i < |s[1..]| ensures s[1..][i] != s[0] {
            assert s[1..][i] == s[i + 1];
          }
        }
      }
      if s[0] in cs then rest
      else
        assert NoDup(s) ==> NoDup([s[0]] + rest) by {
          if NoDup(s) {
            forall i, j | 0 <= i < j < |[s[0]] + rest| ensures ([s[0]] + rest)[i] != ([s[0]] + rest)[j] {
              if i == 0 { assert ([s[0]] + rest)[j] == rest[j - 1]; }
              else { assert ([s[0]] + rest)[i] == rest[i - 1] && ([s[0]] + rest)[j] == rest[j - 1]; }
            }
          }
        }
        [s[0]] + rest
  }

  /** The element after the components `cs` were appended to another parent:
      the DOM moves them, so they leave this element's children, but the
      `slot` attribute lives on them and stays. */
  function Detach(e: Element, cs: seq<Component>): (r: Element)
    requires WellFormed(e)
    ensures WellFormed(r)
    ensures forall c :: c in r.children <==> c in e.children && c !in cs
    ensures r == e.(children := r.children)
  {
    e.(children := Without(e.children, cs))
  }

  /** `setOrientation(String)`: null is stored as the empty string, anything
      else verbatim. */
  function SetOrientationString(e: Element, o: Option<string>): (r: Element)
    ensures OrientationString(r) == o.GetOr("")
    ensures r == e.(orientation := r.orientation)
  {
    e.(orientation := if o.None? then "" else o.value)
  }

  /** `getOrientationString`: the stored property. */
  function OrientationString(e: Element): string {
    e.orientation
  }

  /** `addThemeVariants`: the theme names gain the variants' names. */
  function AddThemeVariants(e: Element, vs: seq<Variant>): (r: Element)
    ensures forall v :: v in vs ==> VariantName(v) in r.themeNames
    ensures forall n :: n in r.themeNames <==>
      n in e.themeNames || exists v :: v in vs && VariantName(v) == n
    ensures r == e.(themeNames := r.themeNames)
  {
    e.(themeNames := e.themeNames + VariantNames(vs))
  }

  /** `removeThemeVariants`: the theme names lose the variants' names. */
  function RemoveThemeVariants(e: Element, vs: seq<Variant>): (r: Element)
    ensures forall v :: v in vs ==> VariantName(v) !in r.themeNames
    ensures forall n :: n in r.themeNames <==>
      n in e.themeNames && !exists v :: v in vs && VariantName(v) == n
    ensures r == e.(themeNames := r.themeNames)
  {
    e.(themeNames := e.themeNames - VariantNames(vs))
  }

  /** Adding the same variants twice is the same as adding them once. */
  lemma AddThemeVariantsIdempotent(e: Element, vs: seq<Variant>)
    ensures AddThemeVariants(AddThemeVariants(e, vs), vs) == AddThemeVariants(e, vs)
  {
  }

  /** Adding and then removing variants the element did not have restores it. */
  lemma RemoveAfterAddRestores(e: Element, vs: seq<Variant>)
    requires forall v :: v in vs ==> VariantName(v) !in e.themeNames
    ensures RemoveThemeVariants(AddThemeVariants(e, vs), vs) == e
  {
    var r := RemoveThemeVariants(AddThemeVariants(e, vs), vs);
    assert r.themeNames == e.themeNames;
  }
}
