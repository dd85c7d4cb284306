/**
 * The TabNavigator component: it holds the rendered-scene-key set as state,
 * seeds it when constructed, recomputes it when new props arrive, and renders
 * the scene list and the tab bar from its props and that set.
 */
module TabNavigatorComponent {
  import opened Elements
  import opened SceneKeys
  import opened Scenes
  import opened TabEntries

  /** The navigator props the model reads. */
  datatype NavigatorProps = NavigatorProps(children: seq<Child>, sceneStyle: StyleProp, hidesTabTouch: bool)

  class TabNavigator {
    var props: NavigatorProps
    var renderedSceneKeys: set<string>
    /** Every children list the navigator has received, the one given at construction first. */
    ghost var history: seq<seq<Child>>

    ghost predicate Valid()
      reads this
    {
      && history != []
      && props.children == history[|history| - 1]
      && renderedSceneKeys == KeysAfter(history)
    }

    /** Construction seeds the set from the initial children, starting from an empty set. */
    constructor (initial: NavigatorProps)
      ensures Valid() && history == [initial.children]
      ensures props == initial
      ensures renderedSceneKeys == RenderedKeys(initial.children, {})
      ensures renderedSceneKeys == SelectedKeys(initial.children)
    {
      var keys := UpdateRenderedSceneKeys(initial.children, {});
      props := initial;
      renderedSceneKeys := keys;
      history := [initial.children];
      assert [initial.children][..0] == [];
      InitialKeysAreSelected(initial.children);
    }

    /**
     * `componentWillReceiveProps(next)` replaces the set with the one computed
     * from the next children and the current set; the framework then installs
     * `next` as the props.
     */
    method ComponentWillReceiveProps(next: NavigatorProps)
      requires Valid()
      modifies this
      ensures Valid() && history == old(history) + [next.children]
      ensures props == next
      ensures renderedSceneKeys == RenderedKeys(next.children, old(renderedSceneKeys))
      ensures SelectedKeys(next.children) <= renderedSceneKeys
      ensures old(renderedSceneKeys) * AllKeys(next.children) <= renderedSceneKeys
      ensures renderedSceneKeys <= AllKeys(next.children)
      ensures renderedSceneKeys <= EverSelectedKeys(history)
    {
      var keys := UpdateRenderedSceneKeys(next.children, renderedSceneKeys);
      RenderedKeysKeepAndAdd(next.children, renderedSceneKeys);
      RenderedKeysWithinChildren(next.children, renderedSceneKeys);
      renderedSceneKeys := keys;
      props := next;
      history := history + [next.children];
      assert history[..|history| - 1] == old(history);
      LazyMount(history);
    }

    /**
     * `render`: a loop over the children that pushes one scene container for
     * each valid element whose key is in the set, and the tab bar with one tab
     * per element.
     */
    method Render() returns (scenes: seq<Scene>, tabs: seq<TabEntry>)
      ensures scenes == SceneList(props.children, renderedSceneKeys, props.sceneStyle)
      ensures tabs == TabBarEntries(props.children, props.hidesTabTouch)
    {
      var children := props.children;
      scenes := [];
      var index := 0;
      while index < |children|
        invariant 0 <= index <= |children|
        invariant scenes == ScenesUpTo(children, renderedSceneKeys, props.sceneStyle, index)
      {
        var item := children[index];
        if item.Null? {
          index := index + 1;
          continue;
        }
        if item.Element? {
          var sceneKey := SceneKey(item.key, index);
          if sceneKey !in renderedSceneKeys {
            index := index + 1;
            continue;
          }
          var selected := item.props.selected;
          scenes := scenes + [Scene(sceneKey, index, item.props, RenderSceneContainer(selected, props.sceneStyle))];
        }
        index := index + 1;
      }
      tabs := TabBarEntries(children, props.hidesTabTouch);
    }
  }

  function Item(selected: bool): ItemProps
  {
    ItemProps(selected, None, None, None, None, None, None, None, false, None, NoStyle, NoStyle, NoStyle)
  }

  /** Items A (selected), B and C at mount. */
  const Mounted: seq<Child> := [Element(Some("A"), Item(true)), Element(Some("B"), Item(false)), Element(Some("C"), Item(false))]

  /** The same items after the parent has moved the selection to C. */
  const CSelected: seq<Child> := [Element(Some("A"), Item(false)), Element(Some("B"), Item(false)), Element(Some("C"), Item(true))]

  /** Mounting selects A's scene only; selecting C adds C's scene and keeps A's. B's scene never appears. */
  lemma ScenarioKeys()
    ensures RenderedKeys(Mounted, {}) == {"scene-A"}
    ensures RenderedKeys(CSelected, {"scene-A"}) == {"scene-A", "scene-C"}
  {
    assert KeyAt(Mounted, 0) == "scene-A" && KeyAt(Mounted, 1) == "scene-B" && KeyAt(Mounted, 2) == "scene-C";
    InitialKeysAreSelected(Mounted);
    assert SelectedKeys(Mounted) == {"scene-A"};
    assert KeyAt(CSelected, 0) == "scene-A" && KeyAt(CSelected, 1) == "scene-B" && KeyAt(CSelected, 2) == "scene-C";
    RenderedKeysDecomposition(CSelected, {"scene-A"});
    assert AllKeys(CSelected) == {"scene-A", "scene-B", "scene-C"};
    assert SelectedKeys(CSelected) == {"scene-C"};
  }

  /** After C is selected, the scene list is A's (hidden) then C's (shown). */
  lemma ScenarioScenes()
    ensures var s := SceneList(CSelected, {"scene-A", "scene-C"}, NoStyle);
            && |s| == 2 && s[0].key == "scene-A" && s[1].key == "scene-C"
            && s[0].view.pointerEvents == PointerNone && !s[0].view.shouldUpdate
            && s[1].view.pointerEvents == PointerAuto && s[1].view.shouldUpdate
  {
    var keys := {"scene-A", "scene-C"};
    assert KeyAt(CSelected, 0) == "scene-A" && KeyAt(CSelected, 1) == "scene-B" && KeyAt(CSelected, 2) == "scene-C";
    assert ScenesUpTo(CSelected, keys, NoStyle, 1) == [SceneFor(CSelected, 0, NoStyle)];
    assert ScenesUpTo(CSelected, keys, NoStyle, 2) == [SceneFor(CSelected, 0, NoStyle)];
  }

  /** A client of the class: the same scenario through the navigator's own methods. */
  method NavigatorScenario()
  {
    ScenarioKeys();
    ScenarioScenes();
    var nav := new TabNavigator(NavigatorProps(Mounted, NoStyle, false));
    assert nav.renderedSceneKeys == {"scene-A"};
    nav.ComponentWillReceiveProps(NavigatorProps(CSelected, NoStyle, false));
    assert nav.renderedSceneKeys == {"scene-A", "scene-C"};
    var scenes, tabs := nav.Render();
    assert |scenes| == 2 && scenes[0].key == "scene-A" && scenes[1].key == "scene-C";
    assert scenes[0].view.pointerEvents == PointerNone && scenes[1].view.pointerEvents == PointerAuto;
  }
}
