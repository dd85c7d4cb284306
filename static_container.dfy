/**
 * StaticContainer: a render-skip wrapper around one child. The framework
 * re-renders it only when `shouldComponentUpdate` says so; otherwise the output
 * of the last render stays on screen, whatever the new props are.
 */
module StaticContainerComponent {
  import opened Elements

  /** The props of a StaticContainer: an optional `shouldUpdate` flag and its children. */
  datatype ContainerProps = ContainerProps(shouldUpdate: Option<bool>, children: seq<Node>)

  /** What a render produces: null, the single child, or the only-child failure. */
  type Output = Result<Option<Node>>

  /** `shouldComponentUpdate`: `!!nextProps.shouldUpdate`. */
  function ShouldComponentUpdate(next: ContainerProps): (r: bool)
    ensures r <==> next.shouldUpdate == Some(true)
  {
    Truthy(next.shouldUpdate)
  }

  /** `render`: null without children, otherwise the only child. */
  function Render(children: seq<Node>): (r: Output)
    ensures children == [] ==> r == Ok(None)
    ensures |children| == 1 ==> r == Ok(Some(children[0]))
    ensures |children| > 1 ==> r == Err(OnlyChildExpected)
  {
    OptionalOnlyChild(children)
  }

  /** The output on screen after the framework offers the props `next`. */
  function Step(shown: Output, next: ContainerProps): (r: Output)
    ensures ShouldComponentUpdate(next) ==> r == Render(next.children)
    ensures !ShouldComponentUpdate(next) ==> r == shown
  {
    if ShouldComponentUpdate(next) then Render(next.children) else shown
  }

  /** The output on screen after a sequence of prop updates, oldest first. */
  function OutputAfter(shown: Output, updates: seq<ContainerProps>): Output
  {
    if updates == [] then shown
    else Step(OutputAfter(shown, updates[..|updates| - 1]), updates[|updates| - 1])
  }

  /** Any number of consecutive updates that are refused leave the output unchanged. */
  lemma {:induction false} SuppressedUpdatesKeepOutput(shown: Output, updates: seq<ContainerProps>)
    requires forall j :: 0 <= j < |updates| ==> !ShouldComponentUpdate(updates[j])
    ensures OutputAfter(shown, updates) == shown
  {
    if updates != [] {
      SuppressedUpdatesKeepOutput(shown, updates[..|updates| - 1]);
    }
  }

  /**
   * The output is the render of the last accepted update's children: updates
   * after it are refused and do not touch it.
   */
  lemma {:induction false} LastAcceptedUpdateDecides(shown: Output, updates: seq<ContainerProps>, j: nat)
    requires j < |updates| && ShouldComponentUpdate(updates[j])
    requires forall l :: j < l < |updates| ==> !ShouldComponentUpdate(updates[l])
    ensures OutputAfter(shown, updates) == Render(updates[j].children)
  {
    if j < |updates| - 1 {
      LastAcceptedUpdateDecides(shown, updates[..|updates| - 1], j);
    }
  }

  /**
   * A mounted StaticContainer. `props` are the props the framework last gave
   * it; `output` is what it last rendered, which the framework keeps on screen.
   */
  class StaticContainer {
    var props: ContainerProps
    var output: Output

    /** Mounting always renders, whatever `shouldUpdate` says. */
    constructor (initial: ContainerProps)
      ensures props == initial && output == Render(initial.children)
    {
      props := initial;
      output := Render(initial.children);
    }

    /**
     * The framework offers new props: they are installed, and the component
     * re-renders iff `shouldComponentUpdate` accepts them.
     */
    method ReceiveProps(next: ContainerProps) returns (rerendered: bool)
      modifies this
      ensures rerendered == ShouldComponentUpdate(next)
      ensures props == next
      ensures output == Step(old(output), next)
      ensures !rerendered ==> output == old(output)
      ensures rerendered ==> output == Render(next.children)
    {
      rerendered := ShouldComponentUpdate(next);
      props := next;
      if rerendered {
        output := Render(next.children);
      }
    }
  }
}
