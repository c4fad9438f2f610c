# ErrorBoundary, modelled in Dafny

This project models the `ErrorBoundary` component from `src/lib/ErrorBoundary.tsx` and its wrapping helper `withErrorBoundary`.

The boundary holds one optional error. It starts with none. When a descendant raises during rendering, the host captures the error and then notifies the boundary, which calls `onError`. The fallback can call `resetErrorBoundary`, which calls `onReset` and clears the error. `render` returns the children while there is no error. Otherwise it returns the first usable fallback: a valid `fallback` element, then a function `fallbackRender`, then a `FallbackComponent`. If none is usable, it throws a configuration error.

Everything is pure functions over immutable datatypes:

- `react_model.dfy` (module `ReactModel`): elements, components, callbacks and render functions as opaque tokens, plus the boundary's props. `isValidElement` holds only for an actual element, never for `null`.
- `error_boundary.dfy` (module `ErrorBoundary`): the state, capture (`getDerivedStateFromError`), `componentDidCatch`, reset and render. Callbacks are not run. Each call is appended to an effect trace, so their order can be stated. A `StateReset` entry marks `setState(initialState)`.
- `with_error_boundary.dfy` (module `WithErrorBoundary`): wrapping a component and deriving the wrapper's display name.
- `lifecycle.dfy` (module `Lifecycle`): a boundary driven by a sequence of host events (a throw, a reset, a re-render with new props). Lemmas relate whole runs to reference descriptions.

Two behaviours of the code that are easy to assume otherwise:

- The boundary has no reset keys. src/components/Example/ResetKeysExample.tsx:15 passes `resetKeys`, but the props interface (src/lib/ErrorBoundary.tsx:16-22) has no such field and no code reads it. In the model a re-render never changes the state.
- `getDerivedStateFromError` (src/lib/ErrorBoundary.tsx:37-39) replaces the state even when the boundary has already failed, and the model does the same.

## Model

| member | source | states |
|---|---|---|
| ErrorBoundary.Mount | src/lib/ErrorBoundary.tsx:30-35 | a newly built boundary has no error and has called no callback yet |
| ErrorBoundary.FreshBoundaryRendersChildren | src/lib/ErrorBoundary.tsx:54-78 | a newly built boundary renders its children, whatever fallbacks it is configured with |
| ErrorBoundary.DeriveStateFromError | src/lib/ErrorBoundary.tsx:37-39 | the state derived from a raised error holds exactly that error |
| ErrorBoundary.Capture | src/lib/ErrorBoundary.tsx:37-39 | after capture the stored error is the captured one, and props, children, identity and trace are unchanged |
| ErrorBoundary.CaptureForgetsPriorState | src/lib/ErrorBoundary.tsx:37-39 | the result of a capture does not depend on the prior state, and capturing the same error twice is the same as once |
| ErrorBoundary.DidCatch | src/lib/ErrorBoundary.tsx:41-45 | when `onError` is supplied, exactly one call is appended, with the error and the component stack; with no `onError` the trace is unchanged; the state is never touched |
| ErrorBoundary.Reset | src/lib/ErrorBoundary.tsx:47-52 | the `onReset` call (if supplied) comes before the state reset in the trace; afterwards there is no error; props, children and identity are kept |
| ErrorBoundary.ResetIdempotentOnState | src/lib/ErrorBoundary.tsx:47-52 | resetting twice leaves the same state and output as resetting once (initial state, children shown); a reset after a capture leaves no trace of the captured error |
| ErrorBoundary.SelectStrategy | src/lib/ErrorBoundary.tsx:64-74 | picks one fallback strategy (a tagged union). A valid element always wins. A function render wins only if there is no valid element. The component is used only if neither of those exists. The result is None exactly when no fallback is usable |
| ErrorBoundary.FallbackPropsOf | src/lib/ErrorBoundary.tsx:59-62 | the props handed to a fallback carry exactly the stored error and the reset of this boundary instance |
| ErrorBoundary.Render | src/lib/ErrorBoundary.tsx:54-78 | renders the children exactly when there is no error; while failed, it produces what the selected strategy gives for the stored error and the boundary's own reset |
| ErrorBoundary.ValidFallbackWins | src/lib/ErrorBoundary.tsx:64-66 | while failed, a valid `fallback` element is returned as-is, and changing `fallbackRender` or `FallbackComponent` does not change the output |
| ErrorBoundary.RenderFunctionBeatsComponent | src/lib/ErrorBoundary.tsx:67-69 | while failed with no valid element, a function `fallbackRender` is called with exactly the stored error and the boundary's reset, whatever `FallbackComponent` is |
| ErrorBoundary.ComponentIsLastResort | src/lib/ErrorBoundary.tsx:70-72 | while failed with neither of those, a supplied `FallbackComponent` is instantiated with the stored error and the boundary's reset |
| ErrorBoundary.ConfigErrorExactlyWhenUnconfigured | src/lib/ErrorBoundary.tsx:64-74 | while failed, render throws the configuration error (with its fixed message) if and only if no fallback is usable; a null or non-element `fallback` counts as unusable; it never shows the children |
| ErrorBoundary.FallbackSeesOnlyErrorAndReset | src/lib/ErrorBoundary.tsx:58-72 | while failed, a render function or fallback component receives exactly the stored error and the instance's reset, and the output does not depend on the children |
| WithErrorBoundary.ResolvedName | src/lib/ErrorBoundary.tsx:99 | the name is never empty; it is the first non-empty of `displayName`, `name`, `"Unknown"` |
| WithErrorBoundary.WrapperName | src/lib/ErrorBoundary.tsx:100 | the wrapper's name starts with `withErrorBoundary(`, ends with `)`, and holds exactly the wrapped name in between |
| WithErrorBoundary.UnwrapNameInverts | src/lib/ErrorBoundary.tsx:100 | stripping `withErrorBoundary(` and `)` from a wrapper's display name gives back exactly the wrapped name |
| WithErrorBoundary.Wrap | src/lib/ErrorBoundary.tsx:86-103 | the wrapper renders a boundary with the given configuration around the component, and its display name parses back to the component's resolved name |
| WithErrorBoundary.MountElement | src/lib/ErrorBoundary.tsx:92-94 | only a boundary element mounts a boundary; the mounted boundary has that element's configuration and child, and no error |
| WithErrorBoundary.Expand | src/lib/ErrorBoundary.tsx:90-96 | a wrapper with props `p` renders a boundary element with the wrapper's configuration whose child is the wrapped component with `p`; a user component stays an instance with `p` |
| WithErrorBoundary.WrapRendersBoundaryAroundComponent | src/lib/ErrorBoundary.tsx:90-100 | rendering the wrapper with props `p` gives an `ErrorBoundary` with the configuration around the component rendered with `p`; its display name is `"withErrorBoundary(" + name + ")"` |
| WithErrorBoundary.WrappedBoundaryBehaves | src/lib/ErrorBoundary.tsx:90-96 | the boundary inside a wrapper shows the wrapped component while healthy; after a capture it shows the configuration's selected fallback for that error |
| WithErrorBoundary.NestedWrapName | src/lib/ErrorBoundary.tsx:99-100 | wrapping a wrapper names the outer one after the inner wrapper's display name |
| Lifecycle.Step | src/lib/ErrorBoundary.tsx:37-78 | a throw stores that error and keeps props and children; it appends one `onError` call when `onError` is supplied and a fallback is usable, and nothing otherwise; with no usable fallback the render after it is the configuration error; a reset clears the error after the optional `onReset` call; a re-render replaces props and children but keeps the state and the trace; no step changes the identity |
| Lifecycle.Run | src/lib/ErrorBoundary.tsx:37-52 | any run of events keeps the instance identity and only appends to the trace |
| Lifecycle.RunErrorIsOutstanding | src/lib/ErrorBoundary.tsx:37-52 | after any run, the stored error is the error of the last throw, unless a reset came after it |
| Lifecycle.HealthyWithoutThrowsRendersChildren | src/lib/ErrorBoundary.tsx:54-78 | a healthy boundary that sees no throw renders its current children after every prefix of the events, however many re-renders and resets there are |
| Lifecycle.ResetHandleStable | src/lib/ErrorBoundary.tsx:47-62 | after any run, the reset passed to a fallback is the reset of the instance the run started from |
| Lifecycle.CallbacksOncePerEvent | src/lib/ErrorBoundary.tsx:41-52 | while a fallback is usable and re-renders keep supplying the same callbacks, `onError` is called once per throw and `onReset` once per reset when supplied, and never when not supplied; with no re-render the props are unchanged |
| Lifecycle.UnconfiguredThrowIsNotReported | src/lib/ErrorBoundary.tsx:41-74 | with no usable fallback, a throw does not reach `onError`, and the boundary's render is the configuration error |
| Lifecycle.ThrowWithComponentScenario | src/lib/ErrorBoundary.tsx:37-72 | with `FallbackComponent` F and `onError` log, a throw calls log once with the error and the stack; the output is F with that error and the instance's reset |
| Lifecycle.ThrowThenResetWithFallbackScenario | src/lib/ErrorBoundary.tsx:37-78 | with a static `fallback`, a throw shows that element; a following reset calls `onReset`, then resets the state, and the children are shown again |

## Left out

- React runtime: mounting, unmounting, batching of `setState`, and when the host calls the lifecycle hooks are not modelled. Capture, the catch notification, reset and render are explicit entry points. `setState(initialState)` takes effect at once.
- Reset keys: the props have no such field and the code has no such logic, so nothing resets automatically.
- `useErrorHandler` and asynchronous errors: the library does not export such a hook. Asynchronous errors never reach the boundary.
- Example screens, demo components, the `ErrorFallback` widget and console logging are presentation glue and are not part of this model.
- A fallback that itself throws while rendering: that error goes to an ancestor boundary through the host, which is outside the component.
- Thrown values that are not `Error` objects (for example `throw null`): the model's captured error is always an error value, as the declared types say.
- `FallbackComponent` is either absent or a component. Falsy non-component values such as `0` or `''` are not modelled separately; they behave like an absent one.
- Callbacks and render functions are opaque tokens. What `fallbackRender` returns and what `FallbackComponent` draws stay abstract, as a call applied to its props.
- Lifecycle.Step: when no fallback is usable, the source's render throws after the capture, so the capture never commits and the error goes to an ancestor boundary. The model records the capture, skips `onError`, and keeps the boundary with a configuration-error render. It does not model the boundary being torn down.
- Callbacks are assumed to return normally. In the source, an `onReset` that throws (src/lib/ErrorBoundary.tsx:49) skips `setState(initialState)` (line 51), so the error stays in place and the exception goes to the caller of the reset. An `onError` that throws (line 43) escapes `componentDidCatch` in the same way. The model does not follow either path.
- `ErrorInfo` keeps only `componentStack`, the one field the boundary reads.
