/**
 The `ErrorBoundary` component: a single optional error as state, a capture
 transition, a catch notification that reports to `onError`, a reset that
 reports to `onReset` and clears the state, and a pure render selection.

 Side effects are not performed but recorded: every transition returns the
 boundary with the effects it caused appended to `trace`, in the order the
 component causes them.
 */
module ErrorBoundary {
  import opened ReactModel

  /** `ErrorBoundaryState`: `None` while healthy, the captured error while failed. */
  datatype State = State(error: Option<ErrorValue>)

  /** `initialState`. */
  const InitialState: State := State(None)

  /**
   The boundary's own `resetErrorBoundary` arrow function. It is created once
   per instance, so its identity is the instance's.
   */
  datatype ResetHandle = ResetHandle(instance: nat)

  /** `FallbackProps`: what `fallbackRender` and `FallbackComponent` receive. */
  datatype FallbackProps = FallbackProps(error: ErrorValue, resetErrorBoundary: ResetHandle)

  /** An observable effect: a caller callback invoked, or the state put back to `initialState`. */
  datatype Effect =
    | OnErrorCalled(callback: Callback, error: ErrorValue, info: string)
    | OnResetCalled(callback: Callback)
    | StateReset

  /** A mounted boundary: its identity, current props and children, state, and effects so far. */
  datatype Boundary = Boundary(instance: nat, props: BoundaryProps, children: Node, state: State, trace: seq<Effect>)

  /** What `render` produces. `ConfigError` stands for the error `render` throws. */
  datatype Output =
    | Children(node: Node)
    | FallbackElement(element: Node)
    | RenderCall(fn: RenderFn, fallbackProps: FallbackProps)
    | ComponentInstance(component: Component, fallbackProps: FallbackProps)
    | ConfigError(message: string)

  /** The message of the error `render` throws when no fallback is usable. */
  const ConfigErrorMessage: string := "ErrorBoundary 组件需要传入 fallback, fallbackRender, FallbackComponent 其中一个"

  /** A fresh boundary: constructed with `initialState` and no effects yet. */
  function Mount(instance: nat, props: BoundaryProps, children: Node): (b: Boundary)
    ensures b.state.error.None? && b.trace == []
    ensures b.instance == instance && b.props == props && b.children == children
  {
    Boundary(instance, props, children, InitialState, [])
  }

  /** `getDerivedStateFromError`: the new state holds exactly the raised error. */
  function DeriveStateFromError(e: ErrorValue): (s: State)
    ensures s.error.Some? && s.error.value == e
  {
    State(Some(e))
  }

  /**
   Capture: the host replaces the state with the one derived from the error,
   whatever the prior state; nothing else about the boundary changes.
   */
  function Capture(b: Boundary, e: ErrorValue): (b': Boundary)
    ensures b'.state.error == Some(e)
    ensures b'.(state := b.state) == b
  {
    b.(state := DeriveStateFromError(e))
  }

  /**
   `componentDidCatch`: calls `onError` once with the error and the component
   stack when it is supplied, and does nothing otherwise. The state is untouched.
   */
  function DidCatch(b: Boundary, e: ErrorValue, info: ErrorInfo): (b': Boundary)
    ensures b'.(trace := b.trace) == b
    ensures b.props.onError.None? ==> b'.trace == b.trace
    ensures b.props.onError.Some? ==>
      b'.trace == b.trace + [OnErrorCalled(b.props.onError.value, e, info.componentStack)]
  {
    match b.props.onError
    case None => b
    case Some(cb) => b.(trace := b.trace + [OnErrorCalled(cb, e, info.componentStack)])
  }

  /**
   `resetErrorBoundary`: calls `onReset` when it is supplied, then puts the
   state back to `initialState`. Props, children and identity are kept.
   */
  function Reset(b: Boundary): (b': Boundary)
    ensures b'.state.error.None?
    ensures b'.instance == b.instance && b'.props == b.props && b'.children == b.children
    ensures b.props.onReset.None? ==> b'.trace == b.trace + [StateReset]
    ensures b.props.onReset.Some? ==> b'.trace == b.trace + [OnResetCalled(b.props.onReset.value), StateReset]
  {
    var notified := match b.props.onReset
      case None => b.trace
      case Some(cb) => b.trace + [OnResetCalled(cb)];
    b.(state := InitialState, trace := notified + [StateReset])
  }

  /**
   The single fallback strategy a configuration selects, as a tagged union:
   the first usable one of `fallback`, `fallbackRender`, `FallbackComponent`.
   */
  datatype Strategy = Static(element: Node) | Call(fn: RenderFn) | Instantiate(component: Component)

  /**
   Strategy selection. A valid `fallback` element wins outright; a function
   `fallbackRender` wins over `FallbackComponent`; `None` when none is usable.
   */
  function SelectStrategy(p: BoundaryProps): (s: Option<Strategy>)
    ensures s.None? <==>
      !IsValidElement(p.fallback) && !IsFunction(p.fallbackRender) && p.FallbackComponent.None?
    ensures IsValidElement(p.fallback) ==> s == Some(Static(p.fallback.element))
    ensures s.Some? && s.value.Static? ==> p.fallback == ElementValue(s.value.element)
    ensures s.Some? && s.value.Call? ==>
      !IsValidElement(p.fallback) && p.fallbackRender == Function(s.value.fn)
    ensures s.Some? && s.value.Instantiate? ==>
      !IsValidElement(p.fallback) && !IsFunction(p.fallbackRender) && p.FallbackComponent == Some(s.value.component)
  {
    match p.fallback
    case ElementValue(el) => Some(Static(el))
    case _ =>
      match p.fallbackRender
      case Function(f) => Some(Call(f))
      case _ =>
        match p.FallbackComponent
        case Some(c) => Some(Instantiate(c))
        case None => None
  }

  /** The output a selected strategy produces for the given fallback props. */
  function Present(s: Option<Strategy>, fp: FallbackProps): Output
  {
    match s
    case None => ConfigError(ConfigErrorMessage)
    case Some(Static(el)) => FallbackElement(el)
    case Some(Call(f)) => RenderCall(f, fp)
    case Some(Instantiate(c)) => ComponentInstance(c, fp)
  }

  /** The props `render` builds for the fallbacks: the stored error and the boundary's own reset. */
  function FallbackPropsOf(b: Boundary): (fp: FallbackProps)
    requires b.state.error.Some?
    ensures Some(fp.error) == b.state.error
    ensures fp.resetErrorBoundary.instance == b.instance
  {
    FallbackProps(b.state.error.value, ResetHandle(b.instance))
  }

  /**
   `render`. While healthy it returns the children; while failed it returns
   what the selected strategy produces from the stored error and the
   boundary's own reset, and a configuration error when none is usable.
   */
  function Render(b: Boundary): (r: Output)
    ensures b.state.error.None? ==> r == Children(b.children)
    ensures b.state.error.Some? ==> r == Present(SelectStrategy(b.props), FallbackPropsOf(b))
    ensures r.Children? <==> b.state.error.None?
  {
    if b.state.error.Some? then
      var fallbackProps := FallbackProps(b.state.error.value, ResetHandle(b.instance));
      if IsValidElement(b.props.fallback) then
        FallbackElement(b.props.fallback.element)
      else if IsFunction(b.props.fallbackRender) then
        RenderCall(b.props.fallbackRender.fn, fallbackProps)
      else if b.props.FallbackComponent.Some? then
        ComponentInstance(b.props.FallbackComponent.value, fallbackProps)
      else
        ConfigError(ConfigErrorMessage)
    else
      Children(b.children)
  }

  /** A freshly mounted boundary renders its children, whatever fallbacks it is given. */
  lemma FreshBoundaryRendersChildren(instance: nat, props: BoundaryProps, children: Node)
    ensures Render(Mount(instance, props, children)) == Children(children)
  {
  }

  /** Capture forgets the prior state: two boundaries differing only in state capture alike. */
  lemma CaptureForgetsPriorState(b1: Boundary, b2: Boundary, e: ErrorValue)
    requires b1.(state := b2.state) == b2
    ensures Capture(b1, e) == Capture(b2, e)
    ensures Capture(Capture(b1, e), e) == Capture(b1, e)
  {
  }

  /** Reset is idempotent on the state and on render, and undoes a capture. */
  lemma ResetIdempotentOnState(b: Boundary, e: ErrorValue)
    ensures Reset(Reset(b)).state == Reset(b).state == InitialState
    ensures Render(Reset(Reset(b))) == Render(Reset(b)) == Children(b.children)
    ensures Reset(Capture(b, e)).state == Reset(b).state
  {
  }

  /** While failed, a valid `fallback` element is returned as-is; the other two options are never consulted. */
  lemma ValidFallbackWins(b: Boundary)
    requires b.state.error.Some? && IsValidElement(b.props.fallback)
    ensures Render(b) == FallbackElement(b.props.fallback.element)
    ensures forall r, c :: Render(b.(props := b.props.(fallbackRender := r, FallbackComponent := c))) == Render(b)
  {
  }

  /**
   While failed without a valid `fallback`, a function `fallbackRender` is
   called with exactly the stored error and the boundary's reset, and
   `FallbackComponent` is not consulted.
   */
  lemma RenderFunctionBeatsComponent(b: Boundary)
    requires b.state.error.Some? && !IsValidElement(b.props.fallback) && IsFunction(b.props.fallbackRender)
    ensures Render(b) == RenderCall(b.props.fallbackRender.fn, FallbackProps(b.state.error.value, ResetHandle(b.instance)))
    ensures forall c :: Render(b.(props := b.props.(FallbackComponent := c))) == Render(b)
  {
  }

  /** Otherwise a supplied `FallbackComponent` is instantiated with the stored error and the boundary's reset. */
  lemma ComponentIsLastResort(b: Boundary)
    requires b.state.error.Some? && !IsValidElement(b.props.fallback) && !IsFunction(b.props.fallbackRender)
    requires b.props.FallbackComponent.Some?
    ensures Render(b) == ComponentInstance(b.props.FallbackComponent.value, FallbackProps(b.state.error.value, ResetHandle(b.instance)))
  {
  }

  /**
   While failed, render is a configuration error exactly when no fallback is
   usable (a `null` or non-element `fallback` counts as unusable); it never
   yields the children.
   */
  lemma ConfigErrorExactlyWhenUnconfigured(b: Boundary)
    requires b.state.error.Some?
    ensures Render(b).ConfigError? <==>
      !IsValidElement(b.props.fallback) && !IsFunction(b.props.fallbackRender) && b.props.FallbackComponent.None?
    ensures Render(b).ConfigError? ==> Render(b).message == ConfigErrorMessage
    ensures !Render(b).Children?
  {
  }

  /** Whatever fallback was selected, only the error and the reset reach it: render reads nothing else of the state. */
  lemma FallbackSeesOnlyErrorAndReset(b: Boundary, e: ErrorValue)
    requires b.state.error == Some(e)
    ensures Render(b).RenderCall? ==> Render(b).fallbackProps == FallbackProps(e, ResetHandle(b.instance))
    ensures Render(b).ComponentInstance? ==> Render(b).fallbackProps == FallbackProps(e, ResetHandle(b.instance))
    ensures forall ch :: !Render(b).Children? && Render(b.(children := ch)) == Render(b)
  {
  }
}
