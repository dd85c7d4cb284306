/**
 * Tab: one button of the tab bar. Its render decides which touchable wraps
 * the button, whether a title is shown, how the button and badge are styled,
 * and which child is the icon; a press is forwarded to the `onPress` prop.
 */
module TabComponent {
  import opened Elements

  /** The platform the app runs on (`Platform.OS`, `Platform.Version`). */
  datatype Platform = Platform(os: string, version: int)

  /** The props a Tab reads. `children` is the icon, as a flat list of elements. */
  datatype TabProps = TabProps(
    title: Option<string>,
    titleStyle: StyleProp,
    badge: Option<Node>,
    onPress: Option<Handler>,
    hidesTabTouch: bool,
    allowFontScaling: Option<bool>,
    style: StyleProp,
    children: seq<Node>)

  /** Touch feedback: the Android ripple, or an opacity change to `activeOpacity`. */
  datatype Touchable = Ripple | Opacity(activeOpacity: real)

  datatype TitleView = TitleView(text: string, allowFontScaling: bool, style: StyleProp)

  /** What `render` produces: the touchable, the button's style list and its three parts. */
  datatype TabView = TabView(
    touchable: Touchable,
    style: StyleProp,
    icon: Option<Node>,
    badge: Option<Node>,
    title: Option<TitleView>)

  /** A touch event, known only by its identity. */
  datatype PressEvent = PressEvent(id: nat)

  /** The ripple is used iff touch feedback is not hidden and the app runs on Android 21 or later. */
  predicate UsesRipple(hidesTabTouch: bool, platform: Platform)
  {
    !hidesTabTouch && platform.os == "android" && platform.version >= 21
  }

  function TouchableFor(hidesTabTouch: bool, platform: Platform): (t: Touchable)
    ensures t == Ripple <==> UsesRipple(hidesTabTouch, platform)
    ensures t.Opacity? ==> t.activeOpacity == (if hidesTabTouch then 1.0 else 0.8)
  {
    if UsesRipple(hidesTabTouch, platform) then Ripple
    else Opacity(if hidesTabTouch then 1.0 else 0.8)
  }

  /** The badge as the button shows it: positioned by the tab style, then its own style. */
  function PositionBadge(badge: Node): (b: Node)
    ensures b.style == List([One(TabBadge), badge.style])
    ensures b.Opaque? <==> badge.Opaque?
    ensures b.Opaque? ==> b.id == badge.id
    ensures b.BadgeElement? ==> b.text == badge.text
  {
    badge.(style := List([One(TabBadge), badge.style]))
  }

  /** The style list of the button: the tab container, extra padding when untitled, then the caller's style. */
  function ButtonStyle(p: TabProps): StyleProp
  {
    List([One(TabButton), if StringTruthy(p.title) then NoStyle else One(UntitledTab), p.style])
  }

  /** `render`. It fails only when more than one icon child is given. */
  function RenderTab(p: TabProps, platform: Platform): (r: Result<TabView>)
    ensures r.Err? <==> |p.children| > 1
    ensures r.Ok? ==> r.value.icon == (if |p.children| == 1 then Some(p.children[0]) else None)
    ensures r.Ok? ==> (r.value.touchable == Ripple <==> UsesRipple(p.hidesTabTouch, platform))
    ensures r.Ok? && r.value.touchable.Opacity? ==>
              r.value.touchable.activeOpacity == (if p.hidesTabTouch then 1.0 else 0.8)
    ensures r.Ok? ==> (r.value.title.Some? <==> StringTruthy(p.title))
    ensures r.Ok? && r.value.title.Some? ==>
              r.value.title.value == TitleView(p.title.value, Truthy(p.allowFontScaling), List([One(TabTitle), p.titleStyle]))
    ensures r.Ok? ==> r.value.badge == (if p.badge.Some? then Some(PositionBadge(p.badge.value)) else None)
    ensures r.Ok? ==> r.value.style == List([One(TabButton), if StringTruthy(p.title) then NoStyle else One(UntitledTab), p.style])
  {
    match OptionalOnlyChild(p.children)
    case Err(e) => Err(e)
    case Ok(icon) =>
      var title :=
        if StringTruthy(p.title)
        then Some(TitleView(p.title.value, Truthy(p.allowFontScaling), List([One(TabTitle), p.titleStyle])))
        else None;
      var badge := if p.badge.Some? then Some(PositionBadge(p.badge.value)) else None;
      Ok(TabView(TouchableFor(p.hidesTabTouch, platform), ButtonStyle(p), icon, badge, title))
  }

  /** `_handlePress`: the event goes to `onPress` when one is given; otherwise nothing happens. */
  function HandlePress(onPress: Option<Handler>, e: PressEvent): (r: Option<Call<PressEvent>>)
    ensures r.Some? <==> onPress.Some?
    ensures r.Some? ==> r.value.handler == onPress.value && r.value.event == e
  {
    match onPress
    case Some(h) => Some(Call(h, e))
    case None => None
  }

  /** Hiding touch feedback rules the ripple out on every platform, and the opacity stays at 1. */
  lemma HiddenTouchNeverRipples(p: TabProps, platform: Platform)
    requires p.hidesTabTouch && |p.children| <= 1
    ensures RenderTab(p, platform).Ok? && RenderTab(p, platform).value.touchable == Opacity(1.0)
  {
  }

  /** The touchable does not depend on the title, badge, icon or styles: only on the flag and the platform. */
  lemma TouchableDependsOnFlagAndPlatform(p: TabProps, q: TabProps, platform: Platform)
    requires |p.children| <= 1 && |q.children| <= 1
    requires p.hidesTabTouch == q.hidesTabTouch
    ensures RenderTab(p, platform).value.touchable == RenderTab(q, platform).value.touchable
  {
  }
}
