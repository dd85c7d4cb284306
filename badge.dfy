/**
 * Badge: a pill-shaped label that measures itself after layout and then
 * forces its width to the larger of its measured width and height.
 */
module BadgeComponent {
  import opened Elements

  /** A stored size (`computedSize`). */
  datatype Size = Size(width: real, height: real)

  /** The `nativeEvent.layout` of a layout event. */
  datatype LayoutEvent = LayoutEvent(x: real, y: real, width: real, height: real)

  /** The size-dependent entry of the badge's style list. */
  datatype SizeStyle = Transparent | FixedWidth(width: real)

  function Max(a: real, b: real): real
  {
    if a >= b then a else b
  }

  /** Where the badge starts: a 0 x 0 stored size. */
  const InitialSize: Option<Size> := Some(Size(0.0, 0.0))

  /**
   * The size style `render` derives from the stored size: opacity 0 without one,
   * otherwise an explicit width that covers both stored dimensions and is one of them.
   */
  function SizeStyleOf(computed: Option<Size>): (s: SizeStyle)
    ensures computed.None? <==> s == Transparent
    ensures computed.Some? ==> s.FixedWidth? && s.width >= computed.value.width && s.width >= computed.value.height
    ensures computed.Some? ==> s.width == computed.value.width || s.width == computed.value.height
  {
    match computed
    case None => Transparent
    case Some(size) => FixedWidth(Max(size.height, size.width))
  }

  /** `_handleLayout` acts only when the measurement differs from the stored size. */
  predicate LayoutChanges(stored: Option<Size>, e: LayoutEvent)
  {
    !(stored.Some? && stored.value.height == e.height && stored.value.width == e.width)
  }

  /** The stored size after `_handleLayout(e)`. */
  function AfterLayout(stored: Option<Size>, e: LayoutEvent): (r: Option<Size>)
    ensures LayoutChanges(stored, e) ==> r == Some(Size(e.width, e.height))
    ensures !LayoutChanges(stored, e) ==> r == stored
    ensures r == Some(Size(e.width, e.height))
  {
    if LayoutChanges(stored, e) then Some(Size(e.width, e.height)) else stored
  }

  /** Handling the same measurement a second time changes nothing and forwards nothing. */
  lemma LayoutIdempotent(stored: Option<Size>, e: LayoutEvent)
    ensures !LayoutChanges(AfterLayout(stored, e), e)
    ensures AfterLayout(AfterLayout(stored, e), e) == AfterLayout(stored, e)
  {
  }

  /** The first 0 x 0 measurement of a fresh badge is a no-op. */
  lemma ZeroMeasurementIsNoop(x: real, y: real)
    ensures !LayoutChanges(InitialSize, LayoutEvent(x, y, 0.0, 0.0))
  {
  }

  /** The opacity-0 branch cannot be reached from the initial state by layout handling. */
  lemma NeverTransparent(events: seq<LayoutEvent>)
    ensures SizeStyleOf(StoredAfter(InitialSize, events)).FixedWidth?
  {
  }

  /** The stored size after a sequence of layout events, oldest first. */
  function StoredAfter(stored: Option<Size>, events: seq<LayoutEvent>): Option<Size>
  {
    if events == [] then stored
    else AfterLayout(StoredAfter(stored, events[..|events| - 1]), events[|events| - 1])
  }

  /**
   * A mounted Badge. `computedSize` is its state; `forwarded` records the
   * events passed on to the application's `onLayout`.
   */
  class Badge {
    var computedSize: Option<Size>
    var forwarded: seq<LayoutEvent>

    /** The stored size is always present: the constructor sets 0 x 0 and layout only replaces it. */
    ghost predicate Valid()
      reads this
    {
      computedSize.Some?
    }

    constructor ()
      ensures Valid()
      ensures computedSize == InitialSize && forwarded == []
    {
      computedSize := InitialSize;
      forwarded := [];
    }

    /** The size entry of the style `render` produces. */
    function RenderSizeStyle(): (s: SizeStyle)
      reads this
      ensures Valid() ==> s.FixedWidth?
      ensures !Valid() ==> s == Transparent
      ensures Valid() ==> s.width >= computedSize.value.width && s.width >= computedSize.value.height
      ensures Valid() ==> s.width == computedSize.value.width || s.width == computedSize.value.height
    {
      SizeStyleOf(computedSize)
    }

    /**
     * `_handleLayout(e)`: a measurement equal to the stored size is ignored;
     * otherwise it is stored and `e` is forwarded once to `onLayout`, if the
     * props current when the event arrives supply one (`hasOnLayout`).
     */
    method HandleLayout(e: LayoutEvent, hasOnLayout: bool) returns (changed: bool)
      requires Valid()
      modifies this
      ensures Valid()
      ensures changed == LayoutChanges(old(computedSize), e)
      ensures computedSize == AfterLayout(old(computedSize), e)
      ensures !changed ==> computedSize == old(computedSize) && forwarded == old(forwarded)
      ensures changed ==> computedSize == Some(Size(e.width, e.height))
      ensures forwarded == if changed && hasOnLayout then old(forwarded) + [e] else old(forwarded)
    {
      var width, height := e.width, e.height;
      if computedSize.Some? && computedSize.value.height == height && computedSize.value.width == width {
        return false;
      }
      computedSize := Some(Size(width, height));
      if hasOnLayout {
        forwarded := forwarded + [e];
      }
      changed := true;
    }
  }

  /** A client: a badge measured as 30 x 15 is drawn 30 wide, and a repeat measurement is ignored. */
  method BadgeScenario()
  {
    var b := new Badge();
    var changed := b.HandleLayout(LayoutEvent(0.0, 0.0, 0.0, 0.0), true);
    assert !changed && b.forwarded == [];
    var e := LayoutEvent(1.0, 2.0, 30.0, 15.0);
    changed := b.HandleLayout(e, true);
    assert changed && b.forwarded == [e];
    assert b.RenderSizeStyle() == FixedWidth(30.0);
    changed := b.HandleLayout(e, true);
    assert !changed && b.forwarded == [e];
  }
}
