# Tab navigator: a Dafny model

This project models the logic inside a small set of React Native components that make up a bottom-tab navigator:

- **TabNavigator** keeps the set of *rendered scene keys*. A scene is mounted the first time its child is selected and stays mounted, hidden, after that, while some child still derives its key. The navigator renders one scene container per child whose key is in the set, plus one tab per child.
- **SceneContainer** (inside TabNavigator.tsx) shows or hides one scene.
- **StaticContainer** blocks re-rendering of a hidden scene.
- **Tab** renders one tab button.
- **Badge** is a pill label that sizes itself from its own layout measurement.

Modules:

- `Elements` (elements.dfy) holds the shared values: optional values, the only-child failure, style props as a tree of style tokens, rendered elements, and JavaScript truthiness of the props that are tested for it.
- `SceneKeys` (scene_keys.dfy) covers `_getSceneKey` and `_updateRenderedSceneKeys`. A specification function `RenderedKeys` defines the new set, and the loop method `UpdateRenderedSceneKeys` is proved against it. The lemmas give the membership characterisation, the decomposition `new = (old ∩ current keys) ∪ selected keys`, the seeding at construction, idempotence, and lazy mounting over any history of updates.
- `Scenes` (scenes.dfy) covers `SceneContainer.render` and the scene list that `render` builds.
- `TabEntries` (tab_entries.dfy) covers `_renderTab` and `React.Children.map` over it.
- `TabNavigatorComponent` (tab_navigator.dfy) is the component as a class. Its `renderedSceneKeys` field is seeded by the constructor and replaced by `ComponentWillReceiveProps`. A ghost history of children lists ties the field to `KeysAfter`.
- `BadgeComponent` (badge.dfy) is the `computedSize` state machine.
- `TabComponent` (tab.dfy) is the Tab render decision and press forwarding.
- `StaticContainerComponent` (static_container.dfy) is the update gate. It is a class keeping the last rendered output.

The model follows the code. These facts about the code are easy to miss:

- The rendered-key set can shrink. The code builds the new set only from the current children, so an old key that no current child derives is dropped (`SceneKeys.RenderedKeysWithinChildren`). A key is kept only while some child still derives it.
- Every badge with a stored size gets an explicit width, a square one (15 x 15) included. The code always sets `width = max(height, width)` once a size is stored. The initial stored size is a 0 x 0 object, which is truthy, so the opacity-0 branch for an unmeasured badge is never taken (`BadgeComponent.NeverTransparent`).
- StaticContainer renders `null` when it has no children and returns a single child that is not an array. Any other children fail in `React.Children.only`, which rejects arrays, even an empty array or an array of one element.
- `Tab._handlePress` calls `onPress` only when a handler is provided.
- `Badge._handleLayout` forwards the layout event to `onLayout` only when the measurement changed the stored size.
- A title is shown only when it is truthy, so an empty title gives no title node and gets the untitled padding.
- Derived scene keys are not distinct. An explicit key `"0"` and an unkeyed child at position 0 both give `"scene-0"` (`SceneKeys.DerivedKeysCanCollide`). The set then holds one entry for both, and the scene list renders both children under the same key. Keyed children with different keys get different scene keys, and unkeyed children at different positions get different scene keys (`ExplicitSceneKeysInjective`, `IndexSceneKeysInjective`). Two children with the same explicit key share a scene key.

## Model

| member | source | states |
|---|---|---|
| `Elements.Truthy` | StaticContainer.tsx:18 | `!!flag` is true iff the flag is present and true; a missing flag counts as false |
| `Elements.OptionalOnlyChild` | StaticContainer.tsx:23 | no children give null, a single non-array child is returned, and several children fail the only-child check |
| `StaticContainerComponent.ShouldComponentUpdate` | StaticContainer.tsx:17-19 | an update is accepted iff the incoming `shouldUpdate` is `Some(true)`; a missing value counts as false |
| `StaticContainerComponent.Render` | StaticContainer.tsx:21-24 | null without children, the child itself for a single non-array child, the only-child failure for several |
| `StaticContainerComponent.Step` | StaticContainer.tsx:17-24 | the output after an offered update is the new render when accepted, and the old output otherwise |
| `StaticContainerComponent.SuppressedUpdatesKeepOutput` | StaticContainer.tsx:17-19 | any number of refused updates in a row leave the output unchanged |
| `StaticContainerComponent.LastAcceptedUpdateDecides` | StaticContainer.tsx:17-24 | after a sequence of updates, the output is the render of the last accepted update's children |
| `StaticContainerComponent.StaticContainer.constructor` | StaticContainer.tsx:21-24 | mounting always renders the initial children |
| `StaticContainerComponent.StaticContainer.ReceiveProps` | StaticContainer.tsx:17-24 | new props are installed; the output becomes the new child iff the update is accepted, otherwise it is unchanged |
| `BadgeComponent.SizeStyleOf` | Badge.tsx:39-43 | opacity 0 iff no stored size; otherwise an explicit width that is at least both stored dimensions and equal to one of them |
| `BadgeComponent.AfterLayout` | Badge.tsx:56-66 | the stored size after handling is exactly the measured width and height, unchanged when they were already stored |
| `BadgeComponent.LayoutIdempotent` | Badge.tsx:59-66 | handling the same measurement twice leaves the state of handling it once, and the second time is no change |
| `BadgeComponent.ZeroMeasurementIsNoop` | Badge.tsx:27-32 | a first 0 x 0 measurement of a fresh badge changes nothing |
| `BadgeComponent.NeverTransparent` | Badge.tsx:27-42 | from the initial 0 x 0 state, any sequence of layouts leaves a stored size, so the opacity-0 branch is never rendered |
| `BadgeComponent.Badge.constructor` | Badge.tsx:27-32 | the initial stored size is 0 x 0 and nothing has been forwarded |
| `BadgeComponent.Badge.RenderSizeStyle` | Badge.tsx:36-43 | opacity 0 iff no size is stored; with a stored size the badge gets an explicit width equal to the larger of the stored height and width |
| `BadgeComponent.Badge.HandleLayout` | Badge.tsx:56-71 | an identical measurement changes nothing and forwards nothing; a different one is stored exactly and forwarded once iff the props current at that event supply `onLayout` (a parameter of the method) |
| `TabComponent.TouchableFor` | Tab.tsx:68-93 | ripple iff touch feedback is not hidden and OS is android with version at least 21; otherwise opacity, with `activeOpacity` 1 when hidden and 0.8 otherwise |
| `TabComponent.PositionBadge` | Tab.tsx:57-61 | a badge keeps its identity and gets the positioned badge style placed before its own style |
| `TabComponent.RenderTab` | Tab.tsx:39-103 | fails iff there is more than one icon child; the icon is the only child or null; the badge is the given one, positioned, or none; a title node exists iff the title is truthy; the style list is container, then the untitled padding without a title and null with one, then the caller's style; touchable as above |
| `TabComponent.HandlePress` | Tab.tsx:105-109 | a press reaches `onPress` with the same event iff a handler is provided |
| `TabComponent.HiddenTouchNeverRipples` | Tab.tsx:68-93 | with touch feedback hidden, every platform gets the opacity touchable at opacity 1 |
| `TabComponent.TouchableDependsOnFlagAndPlatform` | Tab.tsx:68-101 | the touchable chosen depends only on `hidesTabTouch` and the platform |
| `SceneKeys.NatToStringInjective` | TabNavigator.tsx:55 | distinct position indices have distinct decimal texts |
| `SceneKeys.SceneKey` | TabNavigator.tsx:54-56 | a scene key is `"scene-"` followed by the element's key when it has one, else by the decimal position |
| `SceneKeys.ExplicitSceneKeysInjective` | TabNavigator.tsx:54-56 | two keyed elements share a scene key iff their keys are equal, whatever their positions |
| `SceneKeys.IndexSceneKeysInjective` | TabNavigator.tsx:54-56 | two unkeyed elements share a scene key iff they stand at the same position |
| `SceneKeys.NonNumericKeyNeverCollides` | TabNavigator.tsx:54-56 | an explicit key with a non-digit character never equals a positional scene key |
| `SceneKeys.DerivedKeysCanCollide` | TabNavigator.tsx:54-56 | an explicit key `"0"` and an unkeyed element at position 0 both give `"scene-0"` |
| `SceneKeys.RenderedKeysMember` | TabNavigator.tsx:58-72 | a key is in the new set iff some valid element at some position derives it and that key was in the old set or the element is selected |
| `SceneKeys.RenderedKeysDecomposition` | TabNavigator.tsx:59-71 | the new set equals the old keys that current children still derive, plus the selected children's keys |
| `SceneKeys.RenderedKeysWithinChildren` | TabNavigator.tsx:59-71 | the new set holds only keys of current valid children; old keys no child derives are dropped |
| `SceneKeys.RenderedKeysKeepAndAdd` | TabNavigator.tsx:66-67 | every selected child's key is added and every old key still derived by a current child is kept |
| `SceneKeys.InitialKeysAreSelected` | TabNavigator.tsx:38 | seeding from the default empty set gives exactly the keys of the initially selected children |
| `SceneKeys.RenderedKeysIdempotent` | TabNavigator.tsx:58-72 | recomputing the set with the same children changes nothing |
| `SceneKeys.RenderedKeysMonotonic` | TabNavigator.tsx:66 | a larger old set never yields a smaller new set |
| `SceneKeys.UpdateRenderedSceneKeys` | TabNavigator.tsx:58-72 | the loop that skips nulls and adds keys of rendered-before or selected elements computes exactly `RenderedKeys` |
| `SceneKeys.LazyMount` | TabNavigator.tsx:38-71 | after any history of updates, every key in the set is the key of a child that was selected in some update |
| `SceneKeys.NullKeepsPositions` | TabNavigator.tsx:60-64 | null entries are skipped but counted: an unkeyed selected element after a null gets `"scene-1"` |
| `SceneKeys.ReplacingNullAddsOnlyItsKey` | TabNavigator.tsx:60-64 | a null contributes nothing; an element in its place adds at most its own key and moves no other child's key |
| `Scenes.RenderSceneContainer` | TabNavigator.tsx:175-192 | pointer events `none`, clipped subviews and the hidden style iff not selected; the StaticContainer updates iff selected; the style list is scene container, then the hidden style when not selected and null when selected, then the scene style |
| `Scenes.SceneListShape` | TabNavigator.tsx:76-96 | the scene list has one scene per valid child whose key is in the set, none for the others, in children order, each with its own key, props and container |
| `Scenes.SceneListViews` | TabNavigator.tsx:84-94 | every rendered scene's key is in the set; a non-selected scene takes no touches, clips, is hidden and does not update |
| `Scenes.RenderedSceneWasSelected` | TabNavigator.tsx:59-96 | a scene is rendered only if its key belonged to a selected child at some point |
| `Scenes.StaysMounted` | TabNavigator.tsx:66-96 | a child selected in one update and still at the same position with the same key in the next is rendered in the next, with its current selection's container |
| `Scenes.HiddenSceneKeepsContent` | TabNavigator.tsx:175-192 | across any number of renders of a hidden scene container, whatever scene style each passes, its StaticContainer refuses every update and keeps its output |
| `TabEntries.ResolveIcon` | TabNavigator.tsx:122-137 | a selected item prefers `renderSelectedIcon`, else `renderIcon` with the selected tint appended; an unselected item uses `renderIcon` unchanged; otherwise no icon |
| `TabEntries.IconChildren` | TabNavigator.tsx:162 | the Tab receives the icon as its only child, or no child without an icon |
| `TabEntries.ResolveBadge` | TabNavigator.tsx:139-144 | `renderBadge` takes precedence over `badgeText`; a falsy `badgeText` gives no badge |
| `TabEntries.BadgeNode` | TabNavigator.tsx:139-144 | the Tab gets a badge element iff a badge was resolved: the `renderBadge` element unchanged, or a default Badge holding the `badgeText` |
| `TabEntries.TitleStyle` | TabNavigator.tsx:151-157 | the title style lists the item's `titleStyle` first; the default selected colour and then the item's `selectedTitleStyle` follow iff the item is selected |
| `TabEntries.RenderItemTab` | TabNavigator.tsx:108-164 | `renderTab` bypasses icon, badge and title, with `activeOpacity` 1 when the item hides touch and 0.8 otherwise; the default Tab gets the resolved icon and badge, the navigator's `hidesTabTouch`, the item's title, `onPress`, `allowFontScaling` and tab style, and the selection-dependent title style |
| `TabEntries.RenderTabEntry` | TabNavigator.tsx:108-125 | only a valid element gets a tab entry |
| `TabEntries.TabBarEntries` | TabNavigator.tsx:102 | the tab bar holds one entry per valid element, in children order |
| `TabEntries.DefaultTabRenders` | TabNavigator.tsx:146-163 | the default Tab built for an item always renders, shows exactly the resolved icon, a badge iff one was resolved and a title iff it is truthy |
| `TabEntries.NavigatorFlagDecidesTouchable` | TabNavigator.tsx:160 | on a default tab the touchable follows the navigator's `hidesTabTouch`, and the item's own flag is ignored |
| `TabEntries.CustomTabBypassesDefaults` | TabNavigator.tsx:110-120 | with `renderTab` the entry does not depend on icon renderers, badge or title |
| `TabNavigatorComponent.TabNavigator.constructor` | TabNavigator.tsx:35-39 | the set is seeded with exactly the keys of the initially selected children |
| `TabNavigatorComponent.TabNavigator.ComponentWillReceiveProps` | TabNavigator.tsx:44-52 | the set is replaced by `RenderedKeys` of the next children and the current set: selected keys are added, surviving old keys kept, the rest dropped, and only ever-selected keys present |
| `TabNavigatorComponent.TabNavigator.Render` | TabNavigator.tsx:74-106 | the scene loop produces exactly the specified scene list, and the tab bar one entry per element |
| `TabNavigatorComponent.ScenarioKeys` | TabNavigator.tsx:38-71 | items A (selected), B, C give `{scene-A}`; after C is selected the set is `{scene-A, scene-C}` and B is never added |
| `TabNavigatorComponent.ScenarioScenes` | TabNavigator.tsx:76-96 | in that scenario the scene list is A hidden and then C shown |

## Left out

- TabBar.tsx is not modelled. It is declarative layout whose only branch is a platform shadow offset.
- TabNavigatorItem.tsx is not modelled. It only clones its child with an appended style.
- Style sheets, colours, pixel sizes and the `Layout` module are left out. Styles are opaque tokens (`Elements.Style`), and style lists are kept as nested lists, not flattened.
- The navigator's own container view, the tab bar's style props and the badge text's fixed style entries are left out. So are accessibility props, `testID`, `numberOfLines` and spread props.
- Actual rendering and the touchable components are left out. The model returns values that say which touchable, style list and parts were chosen. `Platform` is a plain `(os, version)` input.
- Renderer props (`renderIcon`, `renderSelectedIcon`, `renderBadge`, `renderTab`) are modelled by the elements they return. A renderer that returns `null` is not modelled; `cloneElement` would fail on it in the tinted-icon path.
- Children are flat lists of elements. Nested arrays in `React.Children.forEach`/`map` are not flattened, and `Children.map` re-keying is not modelled. A text child given to StaticContainer or Tab, where `only` would also fail, is not modelled.
- Children of StaticContainer and Tab are a list of nodes: the empty list stands for absent children, a one-element list for a single child that is not an array, and a longer list for an array of several. Array-form children of length 0 or 1, which `React.Children.only` rejects (and which StaticContainer treats as present because an array is truthy), are not modelled.
- The immutable-library `Set` is a Dafny `set<string>`.
- `setState` is modelled as taking effect at once. `ComponentWillReceiveProps` also installs the next props, which the framework does right after it.
- Layout sizes are `real`. NaN is not modelled: not as a falsy `badgeText`, and not in the equality test of `_handleLayout`.
- The forwarded `onLayout` call is modelled as a log of forwarded events (`Badge.forwarded`), not as a call into application code.
