/**
 * The tab-bar entries of the tab navigator (`_renderTab`): a custom tab when
 * the item supplies `renderTab`, otherwise a default Tab whose icon, badge and
 * title are resolved from the item's configuration.
 */
module TabEntries {
  import opened Elements
  import opened SceneKeys
  import opened TabComponent

  /** Which icon renderer was used, with the element it gave. */
  datatype IconChoice =
    | NoIcon
    | SelectedIcon(node: Node)   // `renderSelectedIcon()` of a selected item
    | TintedIcon(node: Node)     // `renderIcon()` of a selected item, with the selected tint appended
    | PlainIcon(node: Node)      // `renderIcon()` of an unselected item

  /** Which badge source was used. */
  datatype BadgeChoice = NoBadge | CustomBadge(node: Node) | TextBadge(text: BadgeText)

  /** One entry of the tab bar. */
  datatype TabEntry =
    | CustomTab(content: Node, style: StyleProp, onPress: Option<Handler>, activeOpacity: real)
    | DefaultTab(icon: IconChoice, badge: BadgeChoice, props: TabProps)

  /**
   * The icon of an item: a selected item prefers `renderSelectedIcon`, else
   * tints `renderIcon`'s element; an unselected item uses `renderIcon` as is;
   * without the renderer it needs there is no icon.
   */
  function ResolveIcon(p: ItemProps): (r: IconChoice)
    ensures p.selected && p.renderSelectedIcon.Some? ==> r == SelectedIcon(p.renderSelectedIcon.value)
    ensures p.selected && p.renderSelectedIcon.None? && p.renderIcon.Some? ==>
              r == TintedIcon(p.renderIcon.value.(style := List([p.renderIcon.value.style, One(DefaultSelectedIcon)])))
    ensures !p.selected && p.renderIcon.Some? ==> r == PlainIcon(p.renderIcon.value)
    ensures r == NoIcon <==> p.renderIcon.None? && (!p.selected || p.renderSelectedIcon.None?)
  {
    if p.selected then
      if p.renderSelectedIcon.Some? then SelectedIcon(p.renderSelectedIcon.value)
      else if p.renderIcon.Some? then
        var icon := p.renderIcon.value;
        TintedIcon(icon.(style := List([icon.style, One(DefaultSelectedIcon)])))
      else NoIcon
    else if p.renderIcon.Some? then PlainIcon(p.renderIcon.value)
    else NoIcon
  }

  /** The Tab's children for an icon choice: the icon element, or nothing. */
  function IconChildren(icon: IconChoice): (cs: seq<Node>)
    ensures |cs| <= 1
    ensures cs == [] <==> icon == NoIcon
    ensures icon != NoIcon ==> cs == [icon.node]
  {
    if icon == NoIcon then [] else [icon.node]
  }

  /**
   * The badge of an item: `renderBadge` takes precedence over `badgeText`, and a
   * falsy `badgeText` ("" or 0) gives no badge.
   */
  function ResolveBadge(p: ItemProps): (r: BadgeChoice)
    ensures p.renderBadge.Some? ==> r == CustomBadge(p.renderBadge.value)
    ensures p.renderBadge.None? && BadgeTextTruthy(p.badgeText) ==> r == TextBadge(p.badgeText.value)
    ensures r == NoBadge <==> p.renderBadge.None? && !BadgeTextTruthy(p.badgeText)
  {
    if p.renderBadge.Some? then CustomBadge(p.renderBadge.value)
    else if BadgeTextTruthy(p.badgeText) then TextBadge(p.badgeText.value)
    else NoBadge
  }

  /** The badge element handed to the Tab: a custom one as rendered, or a default Badge holding the text. */
  function BadgeNode(b: BadgeChoice): (n: Option<Node>)
    ensures n.None? <==> b == NoBadge
    ensures b.CustomBadge? ==> n == Some(b.node)
    ensures b.TextBadge? ==> n == Some(BadgeElement(b.text, NoStyle))
  {
    match b
    case NoBadge => None
    case CustomBadge(node) => Some(node)
    case TextBadge(text) => Some(BadgeElement(text, NoStyle))
  }

  /** The title style: the item's, then (when selected) the default selected colour and the item's selected style. */
  function TitleStyle(p: ItemProps): (s: StyleProp)
    ensures s.List? && |s.entries| == 2 && s.entries[0] == p.titleStyle
    ensures p.selected ==> s.entries[1] == List([One(DefaultSelectedTitle), p.selectedTitleStyle])
    ensures s.entries[1] == NoStyle <==> !p.selected
  {
    List([p.titleStyle, if p.selected then List([One(DefaultSelectedTitle), p.selectedTitleStyle]) else NoStyle])
  }

  /**
   * `_renderTab` for an element. The Tab it builds takes the navigator's
   * `hidesTabTouch`, which replaces the item's own flag.
   */
  function RenderItemTab(p: ItemProps, navigatorHidesTabTouch: bool): (r: TabEntry)
    ensures p.renderTab.Some? ==>
              r == CustomTab(CallTabRenderer(p.renderTab.value, p.selected),
                             List([One(TabContainer), p.tabStyle]),
                             p.onPress,
                             if p.hidesTabTouch then 1.0 else 0.8)
    ensures p.renderTab.None? ==> r.DefaultTab?
    ensures r.DefaultTab? ==>
              && r.icon == ResolveIcon(p)
              && r.badge == ResolveBadge(p)
              && r.props.hidesTabTouch == navigatorHidesTabTouch
              && r.props.children == IconChildren(ResolveIcon(p))
              && r.props.badge == BadgeNode(ResolveBadge(p))
              && r.props.title == p.title && r.props.onPress == p.onPress && r.props.style == p.tabStyle
              && r.props.titleStyle == TitleStyle(p)
              && r.props.allowFontScaling == p.allowFontScaling
  {
    if p.renderTab.Some? then
      CustomTab(CallTabRenderer(p.renderTab.value, p.selected),
                List([One(TabContainer), p.tabStyle]),
                p.onPress,
                if p.hidesTabTouch then 1.0 else 0.8)
    else
      var icon := ResolveIcon(p);
      var badge := ResolveBadge(p);
      DefaultTab(icon, badge,
                 TabProps(p.title, TitleStyle(p), BadgeNode(badge), p.onPress, navigatorHidesTabTouch,
                          p.allowFontScaling, p.tabStyle, IconChildren(icon)))
  }

  /**
   * `_renderTab` for any child: only a valid element gets a tab. (Its later
   * test for `null` can never succeed once the element test has passed.)
   */
  function RenderTabEntry(item: Child, navigatorHidesTabTouch: bool): (r: Option<TabEntry>)
    ensures r.Some? <==> item.Element?
    ensures item.Element? ==> r == Some(RenderItemTab(item.props, navigatorHidesTabTouch))
  {
    match item
    case Element(_, p) => Some(RenderItemTab(p, navigatorHidesTabTouch))
    case _ => None
  }

  /** The items of the valid elements among the children, in order. */
  function Items(children: seq<Child>): seq<ItemProps>
  {
    if children == [] then []
    else Items(children[..|children| - 1])
         + (if children[|children| - 1].Element? then [children[|children| - 1].props] else [])
  }

  /** `React.Children.map(children, _renderTab)`: undefined results are dropped, so one tab per element. */
  function TabBarEntries(children: seq<Child>, navigatorHidesTabTouch: bool): (r: seq<TabEntry>)
    ensures |r| == |Items(children)|
    ensures forall j :: 0 <= j < |r| ==> r[j] == RenderItemTab(Items(children)[j], navigatorHidesTabTouch)
  {
    if children == [] then []
    else
      var prefix := TabBarEntries(children[..|children| - 1], navigatorHidesTabTouch);
      match RenderTabEntry(children[|children| - 1], navigatorHidesTabTouch)
      case Some(e) => prefix + [e]
      case None => prefix
  }

  /**
   * The default Tab built for an item always renders (it gets at most one icon
   * child), shows exactly the resolved icon, and shows a badge iff one was resolved.
   */
  lemma DefaultTabRenders(p: ItemProps, navigatorHidesTabTouch: bool, platform: Platform)
    requires p.renderTab.None?
    ensures var e := RenderItemTab(p, navigatorHidesTabTouch);
            var v := RenderTab(e.props, platform);
            && v.Ok?
            && (v.value.icon.None? <==> ResolveIcon(p) == NoIcon)
            && (v.value.icon.Some? ==> v.value.icon.value == ResolveIcon(p).node)
            && (v.value.badge.Some? <==> ResolveBadge(p) != NoBadge)
            && (v.value.title.Some? <==> StringTruthy(p.title))
  {
  }

  /**
   * On a default tab the touch feedback follows the navigator's `hidesTabTouch`;
   * the item's own flag plays no part.
   */
  lemma NavigatorFlagDecidesTouchable(p: ItemProps, navigatorHidesTabTouch: bool, platform: Platform)
    requires p.renderTab.None?
    ensures var v := RenderTab(RenderItemTab(p, navigatorHidesTabTouch).props, platform);
            v.Ok? && v.value.touchable == TouchableFor(navigatorHidesTabTouch, platform)
    ensures RenderItemTab(p, navigatorHidesTabTouch) == RenderItemTab(p.(hidesTabTouch := !p.hidesTabTouch), navigatorHidesTabTouch)
  {
  }

  /** A custom tab ignores the icon, badge and title configuration entirely. */
  lemma CustomTabBypassesDefaults(p: ItemProps, q: ItemProps, navigatorHidesTabTouch: bool, other: bool)
    requires p.renderTab.Some?
    requires q == p.(renderIcon := q.renderIcon, renderSelectedIcon := q.renderSelectedIcon,
                     renderBadge := q.renderBadge, badgeText := q.badgeText, title := q.title)
    ensures RenderItemTab(p, navigatorHidesTabTouch) == RenderItemTab(q, other)
  {
  }
}
