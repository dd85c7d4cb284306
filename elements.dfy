/**
 * Values shared by the tab-navigator components: optional values, the
 * "expected exactly one child" failure, style props, rendered elements and
 * JavaScript truthiness of the few property types that are tested for it.
 */
module Elements {

  datatype Option<+T> = None | Some(value: T)

  /** The one failure the components can raise: the framework's only-child check. */
  datatype Error = OnlyChildExpected

  datatype Result<+T> = Ok(value: T) | Err(error: Error)

  /** Style tokens. The component style sheets are named entries; anything a user passes is opaque. */
  datatype Style =
    | NavigatorContainer     // TabNavigator styles.container
    | SceneContainer         // TabNavigator styles.sceneContainer
    | HiddenSceneContainer   // TabNavigator styles.hiddenSceneContainer (opacity 0, overflow hidden)
    | DefaultSelectedTitle   // TabNavigator styles.defaultSelectedTitle
    | DefaultSelectedIcon    // TabNavigator styles.defaultSelectedIcon (selected tint)
    | TabContainer           // TabNavigator styles.tabContainer
    | TabBadge               // Tab styles.badge (absolute position of a badge)
    | TabButton              // Tab styles.container
    | UntitledTab            // Tab styles.untitledContainer (extra bottom padding)
    | TabTitle               // Tab styles.title
    | BadgePill              // Badge styles.container
    | UserStyle(id: nat)

  /** A style prop as the framework accepts it: absent, one style, or a (nested) list. */
  datatype StyleProp = NoStyle | One(style: Style) | List(entries: seq<StyleProp>)

  /** An event handler supplied by the application, known only by its identity. */
  datatype Handler = Handler(id: nat)

  /** The value of a badge: the `string | number` of `badgeText`. */
  datatype BadgeText = Text(s: string) | Number(n: real)

  /**
   * A rendered element. `Opaque` is whatever an application renderer returned;
   * `BadgeElement` is the default badge the navigator builds from `badgeText`.
   * Both carry the `style` prop, which cloning replaces.
   */
  datatype Node =
    | Opaque(id: nat, style: StyleProp)
    | BadgeElement(text: BadgeText, style: StyleProp)

  /** A string prop is truthy when it is present and not empty. */
  predicate StringTruthy(s: Option<string>)
  {
    s.Some? && s.value != ""
  }

  /** `badgeText` is truthy unless it is absent, "" or 0 (NaN is not modelled). */
  predicate BadgeTextTruthy(t: Option<BadgeText>)
  {
    match t
    case None => false
    case Some(Text(s)) => s != ""
    case Some(Number(n)) => n != 0.0
  }

  /** A boolean prop with `!!`: an absent value counts as false. */
  function Truthy(b: Option<bool>): (r: bool)
    ensures r <==> b == Some(true)
  {
    match b
    case Some(v) => v
    case None => false
  }

  /** A call made to an application handler, with the event it received. */
  datatype Call<E> = Call(handler: Handler, event: E)

  /**
   * `children ? React.Children.only(children) : null` over a flat list of
   * element children: no children give null, one child is returned, and more
   * than one fail the only-child check.
   */
  function OptionalOnlyChild(children: seq<Node>): (r: Result<Option<Node>>)
    ensures r.Err? <==> |children| > 1
    ensures r == Ok(None) <==> children == []
    ensures forall n :: r == Ok(Some(n)) <==> children == [n]
  {
    if |children| == 0 then Ok(None)
    else if |children| == 1 then Ok(Some(children[0]))
    else Err(OnlyChildExpected)
  }
}
