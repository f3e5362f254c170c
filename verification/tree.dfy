/** The pieces of the element tree shared by the server-side layout and the
    client-side element: components, the two slot names, and the exceptions
    the server side can throw. */
module Tree {

  /** The two named slots of the split layout. */
  datatype Slot = Primary | Secondary

  /** A UI component as far as the layout can tell: either one handed in by
      the caller (identified by `id`) or a `Div` container the layout created
      itself, identified by a creation serial number and holding `items` as
      its children, in order. */
  datatype Component = Leaf(id: nat) | Div(serial: nat, items: seq<Component>)

  /** The exceptions thrown by the modelled operations. */
  datatype Exception =
    | NullOrientation           // NullPointerException from a null orientation
    | NotAChild(c: Component)   // IllegalArgumentException from `remove`
    | NoEnumConstant(s: string) // IllegalArgumentException from `Orientation.valueOf`

  /** Every `Div` inside `c` (including `c` itself) was created before serial
      number `divs` was handed out. */
  predicate Allocated(c: Component, divs: nat)
    decreases c
  {
    match c
    case Leaf(_) => true
    case Div(serial, items) =>
      serial < divs && forall i :: 0 <= i < |items| ==> Allocated(items[i], divs)
  }

  predicate AllAllocated(cs: seq<Component>, divs: nat) {
    forall i :: 0 <= i < |cs| ==> Allocated(cs[i], divs)
  }

  /** No component occurs twice in `cs`. */
  predicate NoDup<T(==)>(cs: seq<T>) {
    forall i, j :: 0 <= i < j < |cs| ==> cs[i] != cs[j]
  }

  /** Creation serials only grow, so an allocated component stays allocated. */
  lemma {:induction false} AllocatedMono(c: Component, divs: nat, divs': nat)
    requires Allocated(c, divs) && divs <= divs'
    ensures Allocated(c, divs')
    decreases c
  {
    match c
    case Leaf(_) =>
    case Div(serial, items) =>
      forall i | 0 <= i < |items|
        ensures Allocated(items[i], divs')
      {
        AllocatedMono(items[i], divs, divs');
      }
  }

  /** A `Div` with the next serial number differs from every allocated component. */
  lemma FreshDivIsNew(c: Component, divs: nat, items: seq<Component>)
    requires Allocated(c, divs)
    ensures Div(divs, items) != c
  {
  }
}
