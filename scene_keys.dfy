/**
 * Scene-key tracking of the tab navigator: each child element gets a derived
 * scene key, and the navigator keeps the set of keys whose scenes stay
 * mounted. The set is recomputed from the previous set and the new children.
 */
module SceneKeys {
  import opened Elements

  /** The configuration a navigator item carries in its props. Renderers are modelled by what they return. */
  datatype ItemProps = ItemProps(
    selected: bool,
    title: Option<string>,
    renderIcon: Option<Node>,
    renderSelectedIcon: Option<Node>,
    renderBadge: Option<Node>,
    badgeText: Option<BadgeText>,
    renderTab: Option<TabRenderer>,
    onPress: Option<Handler>,
    hidesTabTouch: bool,
    allowFontScaling: Option<bool>,
    tabStyle: StyleProp,
    titleStyle: StyleProp,
    selectedTitleStyle: StyleProp)

  /** A `renderTab(selected)` function, given by its result for each value of `selected`. */
  datatype TabRenderer = TabRenderer(whenSelected: Node, whenUnselected: Node)

  function CallTabRenderer(r: TabRenderer, selected: bool): Node
  {
    if selected then r.whenSelected else r.whenUnselected
  }

  /**
   * One entry of the navigator's children: `null`, something that is not an
   * element (a string, a number), or an element with its optional identity key.
   */
  datatype Child = Null | NonElement | Element(key: Option<string>, props: ItemProps)

  const ScenePrefix: string := "scene-"

  function Digit(d: nat): (c: char)
    requires d < 10
    ensures '0' <= c <= '9'
    ensures c as int - '0' as int == d
  {
    ('0' as int + d) as char
  }

  /** The decimal text of a position index, as a template literal writes it. */
  function NatToString(n: nat): (s: string)
    ensures |s| >= 1
    ensures n >= 10 ==> |s| >= 2
    ensures forall j :: 0 <= j < |s| ==> '0' <= s[j] <= '9'
    decreases n
  {
    if n < 10 then [Digit(n)] else NatToString(n / 10) + [Digit(n % 10)]
  }

  /** Distinct indices have distinct decimal texts. */
  lemma {:induction false} NatToStringInjective(a: nat, b: nat)
    requires NatToString(a) == NatToString(b)
    ensures a == b
    decreases a
  {
    var s := NatToString(a);
    if a >= 10 && b >= 10 {
      var pa, pb := NatToString(a / 10), NatToString(b / 10);
      assert s == pa + [Digit(a % 10)] && s == pb + [Digit(b % 10)];
      assert s[..|s| - 1] == pa && s[..|s| - 1] == pb;
      assert Digit(a % 10) == s[|s| - 1] == Digit(b % 10);
      NatToStringInjective(a / 10, b / 10);
    }
  }

  /** `_getSceneKey`: "scene-" followed by the element's key when it has one, else its position. */
  function SceneKey(key: Option<string>, index: nat): (k: string)
    ensures |k| >= |ScenePrefix| && k[..|ScenePrefix|] == ScenePrefix
    ensures key.Some? ==> k[|ScenePrefix|..] == key.value
    ensures key.None? ==> k[|ScenePrefix|..] == NatToString(index)
  {
    ScenePrefix + (if key.Some? then key.value else NatToString(index))
  }

  /** Two keyed elements share a scene key iff their keys are equal, wherever they stand. */
  lemma ExplicitSceneKeysInjective(a: string, b: string, i: nat, j: nat)
    ensures SceneKey(Some(a), i) == SceneKey(Some(b), j) <==> a == b
  {
  }

  /** Two unkeyed elements share a scene key iff they stand at the same position. */
  lemma IndexSceneKeysInjective(i: nat, j: nat)
    ensures SceneKey(None, i) == SceneKey(None, j) <==> i == j
  {
    if SceneKey(None, i) == SceneKey(None, j) {
      assert SceneKey(None, i)[|ScenePrefix|..] == NatToString(i);
      NatToStringInjective(i, j);
    }
  }

  /** A key containing a character that is not a digit never collides with a positional key. */
  lemma NonNumericKeyNeverCollides(key: string, c: nat, i: nat, j: nat)
    requires c < |key| && !('0' <= key[c] <= '9')
    ensures SceneKey(Some(key), i) != SceneKey(None, j)
  {
  }

  /** Derived keys are not distinct: an explicit key "0" and an unkeyed element at position 0 collide. */
  lemma DerivedKeysCanCollide(i: nat)
    ensures SceneKey(Some("0"), i) == SceneKey(None, 0) == "scene-0"
  {
    assert NatToString(0) == "0";
  }

  /** The derived key of the element at position `i`. */
  function KeyAt(children: seq<Child>, i: nat): string
    requires i < |children| && children[i].Element?
  {
    SceneKey(children[i].key, i)
  }

  /**
   * The element at position `i` puts its key in the new set: it is a valid
   * element, and its key was in the old set or it is selected.
   */
  predicate Contributes(children: seq<Child>, oldKeys: set<string>, i: nat)
    requires i < |children|
  {
    children[i].Element? && (KeyAt(children, i) in oldKeys || children[i].props.selected)
  }

  /** The new key set after visiting the first `n` children. */
  function RenderedKeysUpTo(children: seq<Child>, oldKeys: set<string>, n: nat): set<string>
    requires n <= |children|
  {
    if n == 0 then {}
    else RenderedKeysUpTo(children, oldKeys, n - 1)
         + (if Contributes(children, oldKeys, n - 1) then {KeyAt(children, n - 1)} else {})
  }

  /** The rendered-scene-key set computed from the previous set and the current children. */
  function RenderedKeys(children: seq<Child>, oldKeys: set<string>): set<string>
  {
    RenderedKeysUpTo(children, oldKeys, |children|)
  }

  /** The keys of every valid element among the children. */
  function AllKeys(children: seq<Child>): set<string>
  {
    set i | 0 <= i < |children| && children[i].Element? :: KeyAt(children, i)
  }

  /** The keys of the selected elements among the children. */
  function SelectedKeys(children: seq<Child>): set<string>
  {
    set i | 0 <= i < |children| && children[i].Element? && children[i].props.selected :: KeyAt(children, i)
  }

  /** A key is in the set after `n` children iff one of them contributes it. */
  lemma {:induction false} RenderedKeysUpToMember(children: seq<Child>, oldKeys: set<string>, n: nat, k: string)
    requires n <= |children|
    ensures k in RenderedKeysUpTo(children, oldKeys, n) <==>
              exists i :: 0 <= i < n && Contributes(children, oldKeys, i) && KeyAt(children, i) == k
  {
    if n > 0 {
      RenderedKeysUpToMember(children, oldKeys, n - 1, k);
    }
  }

  /**
   * A key is in the new set iff it is derived from a valid element that was
   * already rendered or is selected now.
   */
  lemma RenderedKeysMember(children: seq<Child>, oldKeys: set<string>, k: string)
    ensures k in RenderedKeys(children, oldKeys) <==>
              exists i :: 0 <= i < |children| && Contributes(children, oldKeys, i) && KeyAt(children, i) == k
  {
    RenderedKeysUpToMember(children, oldKeys, |children|, k);
  }

  /**
   * The new set is exactly the old keys that current children still derive,
   * plus the keys of the selected children.
   */
  lemma RenderedKeysDecomposition(children: seq<Child>, oldKeys: set<string>)
    ensures RenderedKeys(children, oldKeys) == (oldKeys * AllKeys(children)) + SelectedKeys(children)
  {
    forall k | k in RenderedKeys(children, oldKeys)
      ensures k in (oldKeys * AllKeys(children)) + SelectedKeys(children)
    {
      RenderedKeysMember(children, oldKeys, k);
    }
    forall k | k in (oldKeys * AllKeys(children)) + SelectedKeys(children)
      ensures k in RenderedKeys(children, oldKeys)
    {
      RenderedKeysMember(children, oldKeys, k);
      if k in SelectedKeys(children) {
        var i :| 0 <= i < |children| && children[i].Element? && children[i].props.selected && KeyAt(children, i) == k;
        assert Contributes(children, oldKeys, i);
      } else {
        var i :| 0 <= i < |children| && children[i].Element? && KeyAt(children, i) == k;
        assert Contributes(children, oldKeys, i);
      }
    }
  }

  /** The new set only holds keys of current children: old keys that no child derives are dropped. */
  lemma RenderedKeysWithinChildren(children: seq<Child>, oldKeys: set<string>)
    ensures RenderedKeys(children, oldKeys) <= AllKeys(children)
    ensures forall k :: k in oldKeys && k !in AllKeys(children) ==> k !in RenderedKeys(children, oldKeys)
  {
    RenderedKeysDecomposition(children, oldKeys);
  }

  /**
   * After an update every selected child's key is present, and every old key
   * that a current child still derives is kept.
   */
  lemma RenderedKeysKeepAndAdd(children: seq<Child>, oldKeys: set<string>)
    ensures SelectedKeys(children) <= RenderedKeys(children, oldKeys)
    ensures oldKeys * AllKeys(children) <= RenderedKeys(children, oldKeys)
  {
    RenderedKeysDecomposition(children, oldKeys);
  }

  /** Construction starts from the empty set, so it seeds exactly the keys of the initially selected children. */
  lemma InitialKeysAreSelected(children: seq<Child>)
    ensures RenderedKeys(children, {}) == SelectedKeys(children)
  {
    RenderedKeysDecomposition(children, {});
  }

  /** Recomputing with the same children changes nothing. */
  lemma RenderedKeysIdempotent(children: seq<Child>, oldKeys: set<string>)
    ensures RenderedKeys(children, RenderedKeys(children, oldKeys)) == RenderedKeys(children, oldKeys)
  {
    RenderedKeysDecomposition(children, oldKeys);
    RenderedKeysDecomposition(children, RenderedKeys(children, oldKeys));
    assert SelectedKeys(children) <= AllKeys(children);
  }

  /** More old keys never give fewer new keys. */
  lemma RenderedKeysMonotonic(children: seq<Child>, a: set<string>, b: set<string>)
    requires a <= b
    ensures RenderedKeys(children, a) <= RenderedKeys(children, b)
  {
    RenderedKeysDecomposition(children, a);
    RenderedKeysDecomposition(children, b);
  }

  /**
   * `_updateRenderedSceneKeys`: a loop over the children that skips `null`,
   * derives each element's key from its original position and adds it when it
   * was rendered before or is selected now.
   */
  method UpdateRenderedSceneKeys(children: seq<Child>, oldKeys: set<string>) returns (newKeys: set<string>)
    ensures newKeys == RenderedKeys(children, oldKeys)
  {
    newKeys := {};
    var index := 0;
    while index < |children|
      invariant 0 <= index <= |children|
      invariant newKeys == RenderedKeysUpTo(children, oldKeys, index)
    {
      var item := children[index];
      if item.Null? {
        index := index + 1;
        continue;
      }
      if item.Element? {
        var key := SceneKey(item.key, index);
        if key in oldKeys || item.props.selected {
          newKeys := newKeys + {key};
        }
      }
      index := index + 1;
    }
  }

  /** The set after a sequence of children lists: the first seeds from nothing, each later one updates. */
  function KeysAfter(history: seq<seq<Child>>): set<string>
  {
    if history == [] then {}
    else RenderedKeys(history[|history| - 1], KeysAfter(history[..|history| - 1]))
  }

  /** Every key that was the key of a selected child in some children list of the history. */
  function EverSelectedKeys(history: seq<seq<Child>>): set<string>
  {
    if history == [] then {}
    else EverSelectedKeys(history[..|history| - 1]) + SelectedKeys(history[|history| - 1])
  }

  /** Lazy mount: the set only ever holds keys that some child carried while selected. */
  lemma {:induction false} LazyMount(history: seq<seq<Child>>)
    ensures KeysAfter(history) <= EverSelectedKeys(history)
  {
    if history != [] {
      var prefix, last := history[..|history| - 1], history[|history| - 1];
      LazyMount(prefix);
      RenderedKeysDecomposition(last, KeysAfter(prefix));
    }
  }

  /** Positions count the `null` entries: an unkeyed selected element after a `null` is "scene-1". */
  lemma NullKeepsPositions(p: ItemProps)
    requires p.selected
    ensures RenderedKeys([Null, Element(None, p)], {}) == {"scene-1"}
  {
    var children := [Null, Element(None, p)];
    assert NatToString(1) == "1";
    assert KeyAt(children, 1) == "scene-1";
    assert RenderedKeysUpTo(children, {}, 1) == {};
    assert Contributes(children, {}, 1);
  }

  /**
   * Null entries contribute nothing: putting an element in place of a `null`
   * adds at most that element's key and leaves every other child's key where it was.
   */
  lemma ReplacingNullAddsOnlyItsKey(children: seq<Child>, oldKeys: set<string>, j: nat, item: Child)
    requires j < |children| && children[j].Null? && item.Element?
    ensures RenderedKeys(children[j := item], oldKeys)
              == RenderedKeys(children, oldKeys)
                 + (if Contributes(children[j := item], oldKeys, j) then {SceneKey(item.key, j)} else {})
  {
    var c2 := children[j := item];
    forall k | true
      ensures k in RenderedKeys(c2, oldKeys) <==>
                k in RenderedKeys(children, oldKeys)
                  + (if Contributes(c2, oldKeys, j) then {SceneKey(item.key, j)} else {})
    {
      RenderedKeysMember(children, oldKeys, k);
      RenderedKeysMember(c2, oldKeys, k);
      if k in RenderedKeys(children, oldKeys) {
        var i :| 0 <= i < |children| && Contributes(children, oldKeys, i) && KeyAt(children, i) == k;
        assert i != j && Contributes(c2, oldKeys, i) && KeyAt(c2, i) == k;
      }
      if k in RenderedKeys(c2, oldKeys) {
        var i :| 0 <= i < |c2| && Contributes(c2, oldKeys, i) && KeyAt(c2, i) == k;
        if i != j {
          assert Contributes(children, oldKeys, i) && KeyAt(children, i) == k;
        }
      }
    }
  }
}
