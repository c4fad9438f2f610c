/**
 The host-framework values the error boundary works with, abstracted to
 their identity. Elements, components, callbacks and render functions are
 opaque tokens: the boundary never looks inside them, it only chooses which
 one to hand back and which arguments to pass along.
 */
module ReactModel {

  /** A value that may be absent (`undefined`/`null` in the source). */
  datatype Option<+T> = None | Some(value: T)

  /** An `Error` raised by a descendant during rendering: identity and message. */
  datatype ErrorValue = ErrorValue(id: nat, message: string)

  /** `React.ErrorInfo`; the boundary only reads its component stack. */
  datatype ErrorInfo = ErrorInfo(componentStack: string)

  /** A caller-supplied side-effecting callback (`onError`, `onReset`). */
  datatype Callback = Callback(id: nat)

  /** A caller-supplied `fallbackRender` function. */
  datatype RenderFn = RenderFn(id: nat)

  /** The props object a user component is rendered with. */
  datatype PropsBag = PropsBag(id: nat)

  /** A React element (a node of the element tree). */
  datatype Node =
    | Host(tag: string, text: string)
    | Instance(component: Component, props: PropsBag)
    | BoundaryElement(config: BoundaryProps, child: Node)

  /**
   A component type. `displayName` and `name` are the two properties that
   `withErrorBoundary` reads; either may be missing or empty.
   */
  datatype Component = Component(displayName: Option<string>, name: Option<string>, body: ComponentBody)

  /** What rendering a component produces: opaque user code, or a boundary around another component. */
  datatype ComponentBody =
    | UserDefined(id: nat)
    | WrappedInBoundary(inner: Component, config: BoundaryProps)

  /**
   The `fallback` prop. Its declared type admits an element or `null`; at
   run time it may also be left out or hold something that is not an element.
   */
  datatype FallbackProp = Undefined | Null | ElementValue(element: Node) | NotAnElement

  /** The `fallbackRender` prop: absent, a function, or some other value. */
  datatype RenderProp = NoRender | Function(fn: RenderFn) | NotAFunction

  /** `ErrorBoundaryProps`: the configuration a caller passes to a boundary. */
  datatype BoundaryProps = BoundaryProps(
    fallback: FallbackProp,
    FallbackComponent: Option<Component>,
    fallbackRender: RenderProp,
    onError: Option<Callback>,
    onReset: Option<Callback>)

  /** `React.isValidElement`: only an actual element qualifies; `null` does not. */
  predicate IsValidElement(f: FallbackProp) {
    f.ElementValue?
  }

  /** `typeof fallbackRender === 'function'`. */
  predicate IsFunction(r: RenderProp) {
    r.Function?
  }

  /** JavaScript truthiness of an optional string: present and non-empty. */
  predicate Truthy(s: Option<string>) {
    s.Some? && s.value != ""
  }
}
