# Collapsible split layout, modelled in Dafny

This project models the state logic of a collapsible two-pane split layout.
The layout is a Vaadin server-side component (`CollapsibleSplitLayout`, on
top of `GeneratedCollapsibleVaadinSplitLayout`) that drives the custom
element `<collapsible-vaadin-split-layout>`. Three small state machines work
over an abstract element tree:

- **`GeneratedLayout`** (`generated_layout.dfy`) is the server-side mirror of
  the element. It holds the children in order and the `slot` attribute of
  every component. It also holds the `orientation` property, the
  `collapsible-components` attribute and the theme names. It models
  slot-tagged appending, `remove` with its exception, `removeAll`, the
  orientation string and the theme variants.
- **`SplitLayout`** (`split_layout.dfy`) is the slot manager. It keeps two
  logical component references and wraps several components in a new `Div`.
  It rebuilds the tree as exactly two slotted children, with an empty `Div`
  standing in for a null reference. It maps the two collapsibility flags to
  the four-valued attribute. It keeps at most one pending style-update
  registration. When the host runs that registration, the layout clears the
  slotted children's flex style and applies the clamped splitter position as
  width or height percentages.
- **`ClientLayout`** (`client_layout.dfy`) is the client-side element. It
  models the property defaults, slot assignment by child index
  (`_processChildren`), the two toggle buttons, the flex-basis clamp and the
  collapse logic of the splitter drag handler. Layout measurements
  (`getBoundingClientRect`) are inputs.
- **`ServerClient`** (`server_client.dfy`) connects the two sides. A rendered
  server tree is exactly what the client's slot assignment expects. Removing
  the primary component through `remove` makes the client promote the
  secondary pane, which is the desynchronisation the source documents.
  `Tree` and `Wrappers` hold the shared component type, the exceptions, and
  `Option`/`Result`.

Components are `Leaf(id)` for those a caller hands in, or `Div(serial, items)`
for containers the layout creates. A counter of created `Div`s (`divs`)
makes "a fresh Div" provable: a new `Div` differs from every component that
already exists. Registrations carry a ticket number for the same reason.

Behaviour of the code worth knowing, all of it kept in the model:

- `addToPrimary()` with no arguments stores an empty `Div`, not null.
- `addToPrimary(a, b)` appends `a` and `b` to the new `Div` before
  `setComponents` clears the layout. A component that was a child of the
  layout (such as the current primary component) is moved into the `Div`
  first, so `removeAll` no longer sees it and it keeps its old `slot`
  attribute. The same holds for `addToSecondary`.
- The no-argument constructor leaves the element with no children and no
  `collapsible-components` attribute. Placeholders appear only once a slot
  is first assigned.
- `setOrientation(null)` throws a `NullPointerException`.
- `remove` is not all-or-nothing. Components before the offending one stay
  removed.
- `setOrientation` does not schedule a style update.
- `getOrientation` throws when the stored property names neither constant.
- The documentation of the client properties says that collapsing one pane
  uncollapses the other. The property observers do not do this. Only the
  toggle handlers and the drag handler keep the two flags apart.
- When the drag ends, the handler only checks that the attribute is not
  "none". The primary pane collapses when it measures under 1px. Failing
  that, the secondary pane collapses when it measures under 1px. So either
  pane can collapse even when only the other one is declared collapsible.
  The model keeps this behaviour as written.

## Model

| member | source | states |
|---|---|---|
| `GeneratedLayout.VariantNames` | src/main/java/org/vaadin/tarek/GeneratedCollapsibleVaadinSplitLayout.java:80-82 | the names of the given variants: every variant's name is in the set, and nothing else is |
| `GeneratedLayout.AddToSlot` | src/main/java/org/vaadin/tarek/GeneratedCollapsibleVaadinSplitLayout.java:98-123 | the components are appended after the existing children in argument order, each tagged with the slot; every other component's slot attribute and the other properties are unchanged |
| `GeneratedLayout.AddToSlotWellFormed` | src/main/java/org/vaadin/tarek/GeneratedCollapsibleVaadinSplitLayout.java:98-103 | appending distinct new components keeps the children free of repeats |
| `GeneratedLayout.RemoveChild` | src/main/java/org/vaadin/tarek/GeneratedCollapsibleVaadinSplitLayout.java:153-155 | there is one child fewer, the removed child's slot attribute is cleared and no other attribute changes |
| `GeneratedLayout.RemoveChildAt` | src/main/java/org/vaadin/tarek/GeneratedCollapsibleVaadinSplitLayout.java:155 | the child is taken out at its first position and the other children keep their order |
| `GeneratedLayout.RemoveChildMembership` | src/main/java/org/vaadin/tarek/GeneratedCollapsibleVaadinSplitLayout.java:153-155 | after removing a child it is no longer a child, every other child still is, and there is one child fewer |
| `GeneratedLayout.Remove` | src/main/java/org/vaadin/tarek/GeneratedCollapsibleVaadinSplitLayout.java:151-161 | any exception is IllegalArgument for an argument that is not a child afterwards; no child is added and the children stay free of repeats |
| `GeneratedLayout.RemoveKeepsOthers` | src/main/java/org/vaadin/tarek/GeneratedCollapsibleVaadinSplitLayout.java:151-161 | components not named keep their membership and their slot attribute, whether or not an exception is thrown |
| `GeneratedLayout.RemoveChildren` | src/main/java/org/vaadin/tarek/GeneratedCollapsibleVaadinSplitLayout.java:151-156 | removing distinct current children throws nothing, leaves exactly the other children and clears exactly the removed ones' slot attributes |
| `GeneratedLayout.RemoveStopsAtStranger` | src/main/java/org/vaadin/tarek/GeneratedCollapsibleVaadinSplitLayout.java:151-161 | the first non-child argument throws, and the components before it stay removed (no all-or-nothing) |
| `GeneratedLayout.RemoveStrangerUnchanged` | src/main/java/org/vaadin/tarek/GeneratedCollapsibleVaadinSplitLayout.java:156-158 | removing a single non-child throws and leaves the element unchanged |
| `GeneratedLayout.RemoveAll` | src/main/java/org/vaadin/tarek/GeneratedCollapsibleVaadinSplitLayout.java:168-172 | no children remain, no former child keeps a slot attribute, and other components' attributes are untouched |
| `GeneratedLayout.Detach` | src/main/java/org/vaadin/tarek/CollapsibleSplitLayout.java:91 | appending components to another parent moves them: they leave the children exactly when named, the rest stay free of repeats, and the `slot` attributes and properties are untouched |
| `GeneratedLayout.OrientationString` | src/main/java/org/vaadin/tarek/GeneratedCollapsibleVaadinSplitLayout.java:139-141 | the stored orientation property as it is; the round trip with the setter is stated on `SetOrientationString` |
| `GeneratedLayout.SetOrientationString` | src/main/java/org/vaadin/tarek/GeneratedCollapsibleVaadinSplitLayout.java:198-201 | reading the orientation string back gives the stored string, or "" for null; nothing else changes |
| `GeneratedLayout.AddThemeVariants` | src/main/java/org/vaadin/tarek/GeneratedCollapsibleVaadinSplitLayout.java:79-83 | the theme names become the old names together with the variants' names (set union); nothing else changes |
| `GeneratedLayout.RemoveThemeVariants` | src/main/java/org/vaadin/tarek/GeneratedCollapsibleVaadinSplitLayout.java:180-184 | the theme names become the old names without the variants' names (set difference); nothing else changes |
| `GeneratedLayout.AddThemeVariantsIdempotent` | src/main/java/org/vaadin/tarek/GeneratedCollapsibleVaadinSplitLayout.java:79-83 | adding the same variants twice is the same as adding them once |
| `GeneratedLayout.RemoveAfterAddRestores` | src/main/java/org/vaadin/tarek/GeneratedCollapsibleVaadinSplitLayout.java:180-184 | removing variants right after adding them restores an element that lacked them |
| `SplitLayout.ToUpper` | src/main/java/org/vaadin/tarek/CollapsibleSplitLayout.java:132 | upper-casing keeps the length, maps the ASCII letters a-z to A-Z and leaves every other character as it is |
| `SplitLayout.UpperToken` | src/main/java/org/vaadin/tarek/CollapsibleSplitLayout.java:132 | the upper-cased lower-case token of each constant is the constant's name |
| `SplitLayout.ParseOrientation` | src/main/java/org/vaadin/tarek/CollapsibleSplitLayout.java:132 | `valueOf` of the upper-cased string gives a constant exactly when the string equals that constant's token up to case; otherwise it throws naming the upper-cased string |
| `SplitLayout.GetOrientation` | src/main/java/org/vaadin/tarek/CollapsibleSplitLayout.java:131-133 | the stored property reads back as a constant exactly when it spells that constant's name in any case; any other value makes it throw |
| `SplitLayout.ParseToken` | src/main/java/org/vaadin/tarek/CollapsibleSplitLayout.java:131-133 | `valueOf` of the upper-cased token written for an orientation gives that orientation back |
| `SplitLayout.Occupant` | src/main/java/org/vaadin/tarek/CollapsibleSplitLayout.java:205-214 | the slot occupant is the logical component itself, or a fresh empty `Div` when it is null |
| `SplitLayout.SetComponents` | src/main/java/org/vaadin/tarek/CollapsibleSplitLayout.java:203-215 | afterwards there are exactly two distinct children, slotted primary then secondary. Each is the logical component, or a fresh empty `Div` when that is null. Former children lose their slot, and nothing but the element and the `Div` counter changes |
| `SplitLayout.Wrap` | src/main/java/org/vaadin/tarek/CollapsibleSplitLayout.java:87-93 | one component is used as it is; zero or several go into a new `Div` whose children are exactly the components in order |
| `SplitLayout.Prepare` | src/main/java/org/vaadin/tarek/CollapsibleSplitLayout.java:87-93 | the reference for the slot becomes the wrapped arguments and the other reference is kept; with several arguments those that were children have moved out of the element |
| `SplitLayout.AssignPlaceholder` | src/main/java/org/vaadin/tarek/CollapsibleSplitLayout.java:205-214 | after assigning one slot, the other slot holds a fresh empty `Div` when it has no logical component |
| `SplitLayout.AssignMoved` | src/main/java/org/vaadin/tarek/CollapsibleSplitLayout.java:89-94 | with several arguments none of them stays a child of the layout, and each keeps the `slot` attribute it had |
| `SplitLayout.AssignStale` | src/main/java/org/vaadin/tarek/CollapsibleSplitLayout.java:204 | a former child that is neither rendered again nor moved into the new `Div` loses its `slot` attribute |
| `SplitLayout.AddToPrimary` | src/main/java/org/vaadin/tarek/CollapsibleSplitLayout.java:86-95 | the primary reference becomes non-null: the single component itself, or a fresh `Div` holding exactly the given components in order (empty for none). Wrapped arguments that were children leave the layout with their `slot` attribute intact, other dropped children lose theirs, a missing secondary gets a placeholder, the properties and the secondary reference are unchanged, and the two-slot invariant holds |
| `SplitLayout.WrappedPrimaryKeepsSlot` | src/main/java/org/vaadin/tarek/CollapsibleSplitLayout.java:89-94 | calling `addToPrimary` with the current primary component and another one leaves the former primary outside the layout but still carrying `slot="primary"` |
| `SplitLayout.AddToSecondary` | src/main/java/org/vaadin/tarek/CollapsibleSplitLayout.java:108-117 | the mirror image of `AddToPrimary`; the primary reference is never touched |
| `SplitLayout.New` | src/main/java/org/vaadin/tarek/CollapsibleSplitLayout.java:36-40 | a new layout reads back as horizontal, with no children, no collapsibility attribute, no position and nothing pending |
| `SplitLayout.NewWithPrimary` | src/main/java/org/vaadin/tarek/CollapsibleSplitLayout.java:53-54 | after the first assignment of the two-component constructor the primary pane holds the component and the secondary pane an empty placeholder `Div`; the layout reads back as horizontal, with neither pane collapsible, no position and nothing pending |
| `SplitLayout.NewWith` | src/main/java/org/vaadin/tarek/CollapsibleSplitLayout.java:51-56 | the two-component constructor renders exactly the two components, primary then secondary, with the defaults of the no-argument constructor: horizontal, neither pane collapsible, no position, nothing pending |
| `SplitLayout.CollapsibleValue` | src/main/java/org/vaadin/tarek/CollapsibleSplitLayout.java:311-320 | the attribute value names the primary pane exactly when the primary flag is set, and the secondary pane exactly when the secondary flag is set |
| `SplitLayout.CollapsibleValueRoundTrip` | src/main/java/org/vaadin/tarek/CollapsibleSplitLayout.java:308-321 | the attribute value is one of the four names and determines the two flags exactly: reading it back gives the flags, and each readable value comes from its flags |
| `SplitLayout.UpdateCollapsibleComponents` | src/main/java/org/vaadin/tarek/CollapsibleSplitLayout.java:308-321 | the attribute is replaced by a value that reads back as the current flags; nothing else changes |
| `SplitLayout.SetPrimaryCollapsible` | src/main/java/org/vaadin/tarek/CollapsibleSplitLayout.java:252-255 | only the primary flag and the attribute change, and the attribute reads back as the new pair of flags |
| `SplitLayout.SetSecondaryCollapsible` | src/main/java/org/vaadin/tarek/CollapsibleSplitLayout.java:276-279 | only the secondary flag and the attribute change, and the attribute reads back as the new pair of flags |
| `SplitLayout.SetOrientation` | src/main/java/org/vaadin/tarek/CollapsibleSplitLayout.java:240-243 | null throws and changes nothing; otherwise `getOrientation` afterwards returns the orientation set, and only the orientation property changed |
| `SplitLayout.RequestStylesUpdate` | src/main/java/org/vaadin/tarek/CollapsibleSplitLayout.java:184-188 | exactly one registration is pending afterwards, and it differs from the one it replaced |
| `SplitLayout.Attach` | src/main/java/org/vaadin/tarek/CollapsibleSplitLayout.java:38-39 | attaching marks the layout attached and replaces the pending registration with a new one |
| `SplitLayout.SetSplitterPosition` | src/main/java/org/vaadin/tarek/CollapsibleSplitLayout.java:303-306 | the raw, unclamped value is stored; a new update is requested exactly when the layout is attached, and otherwise nothing else changes |
| `SplitLayout.InnerStyleTarget` | src/main/java/org/vaadin/tarek/CollapsibleSplitLayout.java:217-228 | a style goes to the logical component when it is set, and otherwise to child index 0 (primary) or 1 (secondary) |
| `SplitLayout.Resolve` | src/main/java/org/vaadin/tarek/CollapsibleSplitLayout.java:222-225 | a component target is always reached; a child index is reached exactly when such a child exists (the script's `if (element)`), and then it is that child |
| `SplitLayout.InnerStyleReachesSlot` | src/main/java/org/vaadin/tarek/CollapsibleSplitLayout.java:217-228 | on a rendered layout both ways of addressing a pane reach the child in that pane's slot |
| `SplitLayout.Clamp` | src/main/java/org/vaadin/tarek/CollapsibleSplitLayout.java:327 | the result lies in [0, 100], is 0 below, 100 above and the position itself in between |
| `SplitLayout.UpdateStyles` | src/main/java/org/vaadin/tarek/CollapsibleSplitLayout.java:323-337 | no position means no styles. Otherwise the primary pane gets the clamped position and the secondary pane the rest; both shares lie in [0, 100] and sum to 100. The style is height exactly when the orientation is vertical, and the update fails only when the orientation cannot be read |
| `SplitLayout.Flush` | src/main/java/org/vaadin/tarek/CollapsibleSplitLayout.java:188-200 | with nothing pending nothing happens; otherwise the flex styles are cleared, then the styles are updated, and the register is emptied |
| `SplitLayout.FlushRunsOnce` | src/main/java/org/vaadin/tarek/CollapsibleSplitLayout.java:199 | after the callback has run nothing is pending, so a second pass sends nothing |
| `SplitLayout.CoalescedPositions` | src/main/java/org/vaadin/tarek/CollapsibleSplitLayout.java:184-200 | two positions set before the host's pass produce one update (one flex clearing and one pair of styles), identical to setting only the second position |
| `SplitLayout.Remove` | src/main/java/org/vaadin/tarek/CollapsibleSplitLayout.java:171-174 | removal only changes the element, never the logical references; any exception names an argument |
| `SplitLayout.RemoveAllChildren` | src/main/java/org/vaadin/tarek/CollapsibleSplitLayout.java:179-182 | all children are detached and lose their slot; the logical references are kept |
| `SplitLayout.RemovePrimaryDesyncs` | src/main/java/org/vaadin/tarek/CollapsibleSplitLayout.java:79-81 | removing the primary component leaves the secondary occupant as the only child while the logical primary reference still names the removed component |
| `ClientLayout.Extent` | src/main/resources/META-INF/resources/frontend/src/collapsible-vaadin-split-layout.js:380 | a rectangle is measured by its height when the orientation is "vertical" and by its width for any other value |
| `ClientLayout.Init` | src/main/resources/META-INF/resources/frontend/src/collapsible-vaadin-split-layout.js:247-281 | a new element is horizontal, has collapsible components "none" and has neither pane collapsed |
| `ClientLayout.Reslot` | src/main/resources/META-INF/resources/frontend/src/collapsible-vaadin-split-layout.js:333-343 | each child keeps its node and gets slot primary at index 0, secondary at index 1 and none after that |
| `ClientLayout.ProcessChildren` | src/main/resources/META-INF/resources/frontend/src/collapsible-vaadin-split-layout.js:331-344 | child 0 is slotted primary and becomes the primary reference, child 1 likewise for secondary, and later children lose their slot. A reference whose index does not exist keeps its old value |
| `ClientLayout.ProcessChildrenIdempotent` | src/main/resources/META-INF/resources/frontend/src/collapsible-vaadin-split-layout.js:331-344 | processing the children twice is the same as once |
| `ClientLayout.OnToggleLeft` | src/main/resources/META-INF/resources/frontend/src/collapsible-vaadin-split-layout.js:293-303 | a collapsed secondary pane is uncollapsed and the primary flag is kept; otherwise the primary pane collapses. The 20px reopening happens exactly when the secondary pane measures under 1px, and never are both panes collapsed afterwards |
| `ClientLayout.OnToggleRight` | src/main/resources/META-INF/resources/frontend/src/collapsible-vaadin-split-layout.js:305-315 | the mirror image of the left toggle, on the other flag |
| `ClientLayout.ToggleRightMirrorsLeft` | src/main/resources/META-INF/resources/frontend/src/collapsible-vaadin-split-layout.js:293-315 | the right toggle equals the left toggle applied to the element with the panes exchanged |
| `ClientLayout.ClicksKeepNotBoth` | src/main/resources/META-INF/resources/frontend/src/collapsible-vaadin-split-layout.js:293-315 | any series of toggle clicks from a state with not both panes collapsed ends in such a state |
| `ClientLayout.FlexBasis` | src/main/resources/META-INF/resources/frontend/src/collapsible-vaadin-split-layout.js:346-353 | the basis is clamped into [0, container size], and a zero becomes 0.000001, so the applied basis is always positive |
| `ClientLayout.OnHandleTrack` | src/main/resources/META-INF/resources/frontend/src/collapsible-vaadin-split-layout.js:375-419 | with a pane reference missing nothing happens. A start records the container size (element minus splitter) and the two pane sizes. Otherwise both flags are reset, and the bases written are the start sizes moved by the drag distance along the axis (mirrored for right-to-left horizontal layouts) and passed through `_setFlexBasis`, so both are positive. At the end the primary pane collapses when it measures under 1px, and failing that the secondary pane, both only when the attribute is not "none". At most one flag is set afterwards |
| `ServerClient.RenderedLayoutAgrees` | src/main/resources/META-INF/resources/frontend/src/collapsible-vaadin-split-layout.js:331-344 | on a server tree that satisfies the two-slot invariant, the client keeps every slot, and its pane references are the server's logical components |
| `ServerClient.RemovedPrimaryShiftsPanes` | src/main/java/org/vaadin/tarek/CollapsibleSplitLayout.java:79-81 | after the primary component is removed, the client moves the secondary occupant into the primary slot, while the server still has it as secondary and still names the removed primary |
| `ServerClient.DragCollapseNeedsAFlag` | src/main/resources/META-INF/resources/frontend/src/collapsible-vaadin-split-layout.js:408 | the drag handler's "not none" test holds exactly when at least one collapsibility flag is set on the server |
| `ServerClient.OrientationAxisAgrees` | src/main/resources/META-INF/resources/frontend/src/collapsible-vaadin-split-layout.js:380 | after the public orientation setter, the client measures height exactly when the orientation is vertical, the axis the server sizes |

## Left out

- Vaadin framework machinery is not part of this model. This covers `StateTree`
  scheduling, event dispatch, attach listeners and `executeJs`.
  `Element.appendChild` is modelled only where it moves one of the layout's
  own children into a new wrapper `Div` (`GeneratedLayout.Detach`). The
  pending callback is an explicit
  `Option<Registration>` register. The host's pass is `SplitLayout.Flush`. The
  flex-clearing script is the abstract effect `ClearSlottedFlex`.
- Detaching is not modelled. Nor are the `iron-resize` and `splitter-dragend`
  listener registrations, because they are event plumbing.
- Floating point is replaced by exact `real` arithmetic. The percentage
  strings (`primary + "%"` gives e.g. "0.0%") are numbers in the model, not
  strings.
- DOM measurement is an input. This covers `getBoundingClientRect`, the
  pointer-event save and restore, `style.display` in the collapse observers,
  `notifyResize` and the Polymer gesture plumbing. Their side effects are not
  modelled. The `console.log` call is left out too.
- Null entries inside the varargs of `addToPrimary`/`addToSecondary`/`remove`
  are not modelled. Arguments are always components.
- The CSS theme module has no behaviour and is not part of this model.
- `HasSize` and the simple getters (`getPrimaryComponent`,
  `isPrimaryComponentCollapsible`, …) are not modelled separately. They read
  the fields of `SplitLayout.Layout`.
- `SplitLayout.AddToPrimary`: the requires exclude repeated arguments and
  the current secondary component among the arguments. Re-adding the
  secondary component would pull it back out of the new `Div`, which needs
  a model of the framework's component tree. Other current children among
  the arguments are modelled: they move into the `Div`.
- `SplitLayout.AddToSecondary`: likewise, repeated arguments and the current
  primary component are excluded.
- `SplitLayout.AddToPrimary`: a wrapper `Div`'s `items` are the arguments it
  was created with. When a later call appends one of them elsewhere (for
  example `addToPrimary(a, b)` followed by `addToSecondary(a)`), the DOM
  moves it out of the wrapper, but the model still lists it among the
  wrapper's `items`. Tracking wrapper contents would need every component's
  parent as layout state.
- `SplitLayout.AddToSecondary`: the same holds for the primary wrapper's
  `items`, which the frame clause states as unchanged.
- `SplitLayout.Prepare`: its frame keeps the other slot's wrapper `Div`
  unchanged, including its `items`, for the same reason.
- `SplitLayout.Wrap`: the new `Div`'s `items` describe its contents at
  creation only.
- `GeneratedLayout.AddToSlot`: the requires exclude components that are
  already children, whose re-append would move them.
- `SplitLayout.ParseToken`: upper-casing covers ASCII letters only. Java's
  locale-dependent Unicode case mapping is not modelled.
- `SplitLayout.ToUpper`: `String.toUpperCase` also maps non-ASCII letters
  (dotless 'ı' to 'I') and can lengthen a string ('ß' to "SS"). The model
  maps ASCII letters only and keeps the length.
- `SplitLayout.ParseOrientation`: "up to case" means ASCII case. A spelling
  such as "horızontal", which Java's `valueOf(toUpperCase())` accepts, fails
  in the model.
- `SplitLayout.GetOrientation`: inherits the ASCII-only case mapping of
  `ParseOrientation`.
- `ServerClient.OrientationAxisAgrees`: assumes `toLowerCase()` in the JVM's
  default locale turns "VERTICAL" into "vertical". Under a Turkish locale
  the source stores "vertıcal". The server still reads that back as
  vertical, but the client compares with "vertical" and measures widths.
- `SplitLayout.Flush`: when reading the orientation throws, the model returns
  only the exception. It does not model that the flex-clearing script was
  already queued, or that the stale registration field stays set.
- `ClientLayout.OnHandleTrack`: a track event without a recorded start size
  throws a TypeError in the source. The model reports `startMissing` and
  leaves the state unchanged.
