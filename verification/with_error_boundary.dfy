/**
 `withErrorBoundary`: wraps a component type in an `ErrorBoundary` with a
 fixed configuration and gives the wrapper a diagnostic name built from the
 wrapped component's own name.
 */
module WithErrorBoundary {
  import opened ReactModel
  import ErrorBoundary

  /** The text placed before the wrapped component's name. */
  const NamePrefix: string := "withErrorBoundary("

  /** The name the arrow function `Wrapped` receives from its binding. */
  const WrapperFunctionName: string := "Wrapped"

  /** The wrapped component's name: its `displayName`, else its `name`, else `"Unknown"`, skipping empty ones. */
  function ResolvedName(c: Component): (n: string)
    ensures n != ""
    ensures Truthy(c.displayName) ==> n == c.displayName.value
    ensures !Truthy(c.displayName) && Truthy(c.name) ==> n == c.name.value
    ensures !Truthy(c.displayName) && !Truthy(c.name) ==> n == "Unknown"
  {
    if Truthy(c.displayName) then c.displayName.value
    else if Truthy(c.name) then c.name.value
    else "Unknown"
  }

  /** The diagnostic name given to a wrapper of a component named `n`. */
  function WrapperName(n: string): (s: string)
    ensures |s| == |NamePrefix| + |n| + 1
    ensures s[..|NamePrefix|] == NamePrefix && s[|NamePrefix|..|s| - 1] == n && s[|s| - 1] == ')'
  {
    NamePrefix + n + ")"
  }

  /** Recovers the wrapped name from a wrapper's diagnostic name; `None` for a name not of that form. */
  function UnwrapName(s: string): (n: Option<string>)
    ensures n.Some? ==> WrapperName(n.value) == s
  {
    if |s| > |NamePrefix| && s[..|NamePrefix|] == NamePrefix && s[|s| - 1] == ')' then
      assert s == s[..|NamePrefix|] + s[|NamePrefix|..|s| - 1] + [s[|s| - 1]];
      Some(s[|NamePrefix|..|s| - 1])
    else
      None
  }

  /** `withErrorBoundary(Component, errorBoundaryProps)`. */
  function Wrap(c: Component, config: BoundaryProps): (w: Component)
    ensures w.body == WrappedInBoundary(c, config)
    ensures w.displayName.Some? && UnwrapName(w.displayName.value) == Some(ResolvedName(c))
  {
    var n := ResolvedName(c);
    var w := Component(Some(WrapperName(n)), Some(WrapperFunctionName), WrappedInBoundary(c, config));
    UnwrapNameInverts(n);
    w
  }

  /** Parsing a wrapper name gives back exactly the name that was wrapped. */
  lemma UnwrapNameInverts(n: string)
    ensures UnwrapName(WrapperName(n)) == Some(n)
  {
    var s := WrapperName(n);
    assert s[..|NamePrefix|] == NamePrefix;
    assert s[|NamePrefix|..|s| - 1] == n;
  }

  /** The element a component renders to for the given props; user code stays an opaque instance. */
  function Expand(c: Component, p: PropsBag): (n: Node)
    ensures c.body.UserDefined? ==> n == Instance(c, p)
    ensures c.body.WrappedInBoundary? ==>
      n.BoundaryElement? && n.config == c.body.config && n.child == Instance(c.body.inner, p)
  {
    match c.body
    case UserDefined(_) => Instance(c, p)
    case WrappedInBoundary(inner, config) => BoundaryElement(config, Instance(inner, p))
  }

  /** Mounts a boundary element as a fresh `ErrorBoundary` instance; other elements are not boundaries. */
  function MountElement(instance: nat, n: Node): (b: Option<ErrorBoundary.Boundary>)
    ensures n.BoundaryElement? <==> b.Some?
    ensures b.Some? ==> b.value.props == n.config && b.value.children == n.child && b.value.state.error.None?
  {
    match n
    case BoundaryElement(config, child) => Some(ErrorBoundary.Mount(instance, config, child))
    case _ => None
  }

  /**
   Rendering the wrapper with props `p` gives an `ErrorBoundary` with the
   given configuration around the wrapped component rendered with `p`; the
   wrapper's name is `withErrorBoundary(<name>)`.
   */
  lemma WrapRendersBoundaryAroundComponent(c: Component, config: BoundaryProps, p: PropsBag)
    ensures Expand(Wrap(c, config), p) == BoundaryElement(config, Instance(c, p))
    ensures Wrap(c, config).displayName == Some("withErrorBoundary(" + ResolvedName(c) + ")")
  {
  }

  /**
   The boundary inside a wrapper behaves as a boundary with that
   configuration would: healthy it shows the wrapped component, after a
   capture it shows the configuration's fallback for the captured error.
   */
  lemma WrappedBoundaryBehaves(instance: nat, c: Component, config: BoundaryProps, p: PropsBag, e: ErrorValue)
    ensures MountElement(instance, Expand(Wrap(c, config), p)).Some?
    ensures
      var b := MountElement(instance, Expand(Wrap(c, config), p)).value;
      && ErrorBoundary.Render(b) == ErrorBoundary.Children(Instance(c, p))
      && ErrorBoundary.Render(ErrorBoundary.Capture(b, e))
         == ErrorBoundary.Present(ErrorBoundary.SelectStrategy(config), ErrorBoundary.FallbackProps(e, ErrorBoundary.ResetHandle(instance)))
  {
  }

  /** Wrapping twice names the outer wrapper after the inner wrapper's diagnostic name. */
  lemma NestedWrapName(c: Component, inner: BoundaryProps, outer: BoundaryProps)
    ensures ResolvedName(Wrap(c, inner)) == WrapperName(ResolvedName(c))
    ensures Wrap(Wrap(c, inner), outer).displayName == Some(WrapperName(WrapperName(ResolvedName(c))))
  {
  }
}
