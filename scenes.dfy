/**
 * The scene list of the tab navigator: one scene container per valid child
 * whose scene key is in the rendered set, in children order. A container
 * shows its scene when the child is selected and hides it otherwise, keeping
 * it mounted but frozen behind a StaticContainer.
 */
module Scenes {
  import opened Elements
  import opened SceneKeys
  import StaticContainerComponent

  datatype PointerEvents = PointerAuto | PointerNone

  /** What `SceneContainer.render` produces around a scene. */
  datatype SceneView = SceneView(
    pointerEvents: PointerEvents,
    removeClippedSubviews: bool,
    style: StyleProp,
    shouldUpdate: bool)

  /**
   * `SceneContainer.render`: a selected scene takes touches and is drawn
   * normally; a hidden one takes no touches, lets off-screen views be clipped,
   * gets the hidden style and tells its StaticContainer not to update.
   */
  function RenderSceneContainer(selected: bool, sceneStyle: StyleProp): (v: SceneView)
    ensures v.pointerEvents == PointerNone <==> !selected
    ensures v.removeClippedSubviews <==> !selected
    ensures v.shouldUpdate <==> selected
    ensures v.style.List? && |v.style.entries| == 3
    ensures v.style.entries[0] == One(SceneContainer) && v.style.entries[2] == sceneStyle
    ensures v.style.entries[1] == (if selected then NoStyle else One(HiddenSceneContainer))
  {
    SceneView(
      if selected then PointerAuto else PointerNone,
      !selected,
      List([One(SceneContainer), if selected then NoStyle else One(HiddenSceneContainer), sceneStyle]),
      selected)
  }

  /** One entry of the scene list: the child's key and position, its props, and its container. */
  datatype Scene = Scene(key: string, index: nat, item: ItemProps, view: SceneView)

  function SceneFor(children: seq<Child>, i: nat, sceneStyle: StyleProp): Scene
    requires i < |children| && children[i].Element?
  {
    Scene(KeyAt(children, i), i, children[i].props, RenderSceneContainer(children[i].props.selected, sceneStyle))
  }

  /** The child at position `i` is rendered: it is a valid element whose key is in the set. */
  predicate IsRendered(children: seq<Child>, keys: set<string>, i: nat)
    requires i < |children|
  {
    children[i].Element? && KeyAt(children, i) in keys
  }

  /** The scenes pushed after visiting the first `n` children. */
  function ScenesUpTo(children: seq<Child>, keys: set<string>, sceneStyle: StyleProp, n: nat): seq<Scene>
    requires n <= |children|
  {
    if n == 0 then []
    else ScenesUpTo(children, keys, sceneStyle, n - 1)
         + (if IsRendered(children, keys, n - 1) then [SceneFor(children, n - 1, sceneStyle)] else [])
  }

  /** The scene list of `render`. */
  function SceneList(children: seq<Child>, keys: set<string>, sceneStyle: StyleProp): seq<Scene>
  {
    ScenesUpTo(children, keys, sceneStyle, |children|)
  }

  /** Every scene among the first `n` children's comes from a rendered child before `n`. */
  lemma {:induction false} ScenesUpToEntries(children: seq<Child>, keys: set<string>, sceneStyle: StyleProp, n: nat)
    requires n <= |children|
    ensures var s := ScenesUpTo(children, keys, sceneStyle, n);
            && |s| <= n
            && (forall j :: 0 <= j < |s| ==>
                  s[j].index < n && IsRendered(children, keys, s[j].index)
                  && s[j] == SceneFor(children, s[j].index, sceneStyle))
  {
    if n > 0 {
      ScenesUpToEntries(children, keys, sceneStyle, n - 1);
    }
  }

  /** Scenes come in children order. */
  lemma {:induction false} ScenesUpToOrdered(children: seq<Child>, keys: set<string>, sceneStyle: StyleProp, n: nat)
    requires n <= |children|
    ensures var s := ScenesUpTo(children, keys, sceneStyle, n);
            forall j1, j2 :: 0 <= j1 < j2 < |s| ==> s[j1].index < s[j2].index
  {
    if n > 0 {
      ScenesUpToOrdered(children, keys, sceneStyle, n - 1);
      ScenesUpToEntries(children, keys, sceneStyle, n - 1);
      var prev := ScenesUpTo(children, keys, sceneStyle, n - 1);
      if IsRendered(children, keys, n - 1) {
        assert ScenesUpTo(children, keys, sceneStyle, n) == prev + [SceneFor(children, n - 1, sceneStyle)];
      }
    }
  }

  /** Some scene in `s` comes from the child at position `i`. */
  predicate HasSceneFor(s: seq<Scene>, i: nat)
  {
    exists j :: 0 <= j < |s| && s[j].index == i
  }

  /** Every rendered child before `n` has a scene. */
  lemma {:induction false} ScenesUpToComplete(children: seq<Child>, keys: set<string>, sceneStyle: StyleProp, n: nat)
    requires n <= |children|
    ensures forall i :: 0 <= i < n && IsRendered(children, keys, i) ==>
              HasSceneFor(ScenesUpTo(children, keys, sceneStyle, n), i)
  {
    if n > 0 {
      ScenesUpToComplete(children, keys, sceneStyle, n - 1);
      var prev := ScenesUpTo(children, keys, sceneStyle, n - 1);
      var s := ScenesUpTo(children, keys, sceneStyle, n);
      forall i | 0 <= i < n && IsRendered(children, keys, i)
        ensures HasSceneFor(s, i)
      {
        if i < n - 1 {
          assert HasSceneFor(prev, i);
          var j :| 0 <= j < |prev| && prev[j].index == i;
          assert s[j] == prev[j];
        } else {
          assert s == prev + [SceneFor(children, n - 1, sceneStyle)];
          assert s[|prev|].index == i;
        }
      }
    }
  }

  /**
   * The scene list holds one scene per valid child whose key is in the set, in
   * children order, each with its own key, props and container.
   */
  lemma SceneListShape(children: seq<Child>, keys: set<string>, sceneStyle: StyleProp)
    ensures var s := SceneList(children, keys, sceneStyle);
            && (forall j :: 0 <= j < |s| ==>
                  s[j].index < |children| && IsRendered(children, keys, s[j].index)
                  && s[j] == SceneFor(children, s[j].index, sceneStyle))
            && (forall j1, j2 :: 0 <= j1 < j2 < |s| ==> s[j1].index < s[j2].index)
            && (forall i :: 0 <= i < |children| && IsRendered(children, keys, i) ==>
                  exists j :: 0 <= j < |s| && s[j].index == i)
  {
    ScenesUpToEntries(children, keys, sceneStyle, |children|);
    ScenesUpToOrdered(children, keys, sceneStyle, |children|);
    ScenesUpToComplete(children, keys, sceneStyle, |children|);
  }

  /** Every scene's key is in the set, and a hidden scene is inert and frozen. */
  lemma SceneListViews(children: seq<Child>, keys: set<string>, sceneStyle: StyleProp, j: nat)
    requires j < |SceneList(children, keys, sceneStyle)|
    ensures var sc := SceneList(children, keys, sceneStyle)[j];
            && sc.key in keys
            && (!sc.item.selected ==>
                  sc.view.pointerEvents == PointerNone && sc.view.removeClippedSubviews
                  && sc.view.style == List([One(SceneContainer), One(HiddenSceneContainer), sceneStyle])
                  && !sc.view.shouldUpdate)
            && (sc.item.selected ==> sc.view.pointerEvents == PointerAuto && sc.view.shouldUpdate)
  {
    SceneListShape(children, keys, sceneStyle);
  }

  /** Lazy mount: a rendered scene's key is the key of a child that was selected at some point. */
  lemma RenderedSceneWasSelected(history: seq<seq<Child>>, sceneStyle: StyleProp, j: nat)
    requires history != []
    requires j < |SceneList(history[|history| - 1], KeysAfter(history), sceneStyle)|
    ensures SceneList(history[|history| - 1], KeysAfter(history), sceneStyle)[j].key in EverSelectedKeys(history)
  {
    SceneListViews(history[|history| - 1], KeysAfter(history), sceneStyle, j);
    LazyMount(history);
  }

  /**
   * Stays mounted: a child selected in one update and still present at the
   * same position with the same key in the next is rendered in the next,
   * hidden when it is no longer selected.
   */
  lemma StaysMounted(prev: set<string>, before: seq<Child>, after: seq<Child>, i: nat, sceneStyle: StyleProp)
    requires i < |before| && i < |after|
    requires before[i].Element? && before[i].props.selected
    requires after[i].Element? && after[i].key == before[i].key
    ensures var keys := RenderedKeys(after, RenderedKeys(before, prev));
            var s := SceneList(after, keys, sceneStyle);
            exists j :: 0 <= j < |s| && s[j].index == i
                        && s[j].view == RenderSceneContainer(after[i].props.selected, sceneStyle)
  {
    var mid := RenderedKeys(before, prev);
    var keys := RenderedKeys(after, mid);
    RenderedKeysKeepAndAdd(before, prev);
    assert KeyAt(before, i) in SelectedKeys(before);
    assert KeyAt(after, i) == KeyAt(before, i);
    assert KeyAt(after, i) in AllKeys(after);
    RenderedKeysKeepAndAdd(after, mid);
    assert IsRendered(after, keys, i);
    SceneListShape(after, keys, sceneStyle);
  }

  /**
   * A hidden scene's StaticContainer refuses every update, so across any number
   * of renders while the scene stays unselected its content is what it was,
   * whatever scene style each render passes.
   */
  lemma HiddenSceneKeepsContent(
    shown: StaticContainerComponent.Output,
    sceneStyles: seq<StyleProp>,
    contents: seq<seq<Node>>)
    requires |contents| == |sceneStyles|
    ensures var updates := seq(|sceneStyles|, j requires 0 <= j < |sceneStyles| =>
                               StaticContainerComponent.ContainerProps(
                                 Some(RenderSceneContainer(false, sceneStyles[j]).shouldUpdate), contents[j]));
            StaticContainerComponent.OutputAfter(shown, updates) == shown
  {
    var updates := seq(|sceneStyles|, j requires 0 <= j < |sceneStyles| =>
                       StaticContainerComponent.ContainerProps(
                         Some(RenderSceneContainer(false, sceneStyles[j]).shouldUpdate), contents[j]));
    StaticContainerComponent.SuppressedUpdatesKeepOutput(shown, updates);
  }
}
