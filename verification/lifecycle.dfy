/**
 A boundary driven by a sequence of host events: a descendant raising an
 error (the host calls `getDerivedStateFromError`, then `componentDidCatch`),
 the fallback invoking `resetErrorBoundary`, and the parent re-rendering the
 boundary with new props and children. The lemmas here relate whole runs to
 reference descriptions of where they end up.
 */
module Lifecycle {
  import opened ReactModel
  import opened ErrorBoundary

  datatype HostEvent =
    | Throw(error: ErrorValue, info: ErrorInfo)
    | ResetInvoked
    | Rerender(props: BoundaryProps, children: Node)

  /**
   One event. A throw is captured first; `componentDidCatch` then runs only
   if the boundary can render a fallback, since with none usable its own
   render throws and the capture never commits. A re-render swaps props and
   children but never the state (the props have no reset keys).
   */
  function Step(b: Boundary, ev: HostEvent): (b': Boundary)
    ensures b'.instance == b.instance
    ensures b.trace <= b'.trace
    ensures ev.Throw? ==>
      b'.state.error == Some(ev.error) && b'.props == b.props && b'.children == b.children
    ensures ev.Throw? && SelectStrategy(b.props).Some? && b.props.onError.Some? ==>
      b'.trace == b.trace + [OnErrorCalled(b.props.onError.value, ev.error, ev.info.componentStack)]
    ensures ev.Throw? && (SelectStrategy(b.props).None? || b.props.onError.None?) ==> b'.trace == b.trace
    ensures ev.Throw? && SelectStrategy(b.props).None? ==> Render(b').ConfigError?
    ensures ev.ResetInvoked? ==>
      b'.state.error.None? && b'.props == b.props && b'.children == b.children
    ensures ev.ResetInvoked? ==>
      b'.trace == b.trace + (if b.props.onReset.Some? then [OnResetCalled(b.props.onReset.value)] else []) + [StateReset]
    ensures ev.Rerender? ==>
      b'.state == b.state && b'.trace == b.trace && b'.props == ev.props && b'.children == ev.children
  {
    match ev
    case Throw(e, info) =>
      if SelectStrategy(b.props).Some? then DidCatch(Capture(b, e), e, info) else Capture(b, e)
    case ResetInvoked => Reset(b)
    case Rerender(p, c) => b.(props := p, children := c)
  }

  /** The events applied in order, first to last. */
  function Run(b: Boundary, evs: seq<HostEvent>): (b': Boundary)
    ensures b'.instance == b.instance
    ensures b.trace <= b'.trace
    decreases |evs|
  {
    if |evs| == 0 then b else Run(Step(b, evs[0]), evs[1..])
  }

  /**
   Reference description of the state after some events, read from the end:
   the error of the last throw unless a reset came after it.
   */
  function Outstanding(initial: Option<ErrorValue>, evs: seq<HostEvent>): Option<ErrorValue>
    decreases |evs|
  {
    if |evs| == 0 then initial
    else
      match evs[|evs| - 1]
      case Throw(e, _) => Some(e)
      case ResetInvoked => None
      case Rerender(_, _) => Outstanding(initial, evs[..|evs| - 1])
  }

  /** Number of throws among the events. */
  function Throws(evs: seq<HostEvent>): nat
    decreases |evs|
  {
    if |evs| == 0 then 0 else (if evs[0].Throw? then 1 else 0) + Throws(evs[1..])
  }

  /** Number of reset invocations among the events. */
  function Resets(evs: seq<HostEvent>): nat
    decreases |evs|
  {
    if |evs| == 0 then 0 else (if evs[0].ResetInvoked? then 1 else 0) + Resets(evs[1..])
  }

  /** Number of `onError` calls in a trace. */
  function ErrorReports(t: seq<Effect>): nat
    decreases |t|
  {
    if |t| == 0 then 0 else (if t[0].OnErrorCalled? then 1 else 0) + ErrorReports(t[1..])
  }

  /** Number of `onReset` calls in a trace. */
  function ResetReports(t: seq<Effect>): nat
    decreases |t|
  {
    if |t| == 0 then 0 else (if t[0].OnResetCalled? then 1 else 0) + ResetReports(t[1..])
  }

  /** True when no event replaces the props. */
  predicate PropsFixed(evs: seq<HostEvent>) {
    forall i :: 0 <= i < |evs| ==> !evs[i].Rerender?
  }

  /**
   True when props `q` supply the same callbacks as `p` (both or neither of
   each) and have a usable fallback.
   */
  predicate SameCallbacks(p: BoundaryProps, q: BoundaryProps) {
    && q.onError.Some? == p.onError.Some?
    && q.onReset.Some? == p.onReset.Some?
    && SelectStrategy(q).Some?
  }

  /** True when every re-render among the events passes props with the same callbacks as `p` and a usable fallback. */
  predicate RerendersKeepCallbacks(p: BoundaryProps, evs: seq<HostEvent>) {
    forall i :: 0 <= i < |evs| && evs[i].Rerender? ==> SameCallbacks(p, evs[i].props)
  }

  /** Running one more event is one more step after the run. */
  lemma {:induction false} RunSnoc(b: Boundary, evs: seq<HostEvent>, ev: HostEvent)
    ensures Run(b, evs + [ev]) == Step(Run(b, evs), ev)
    decreases |evs|
  {
    if |evs| == 0 {
      assert evs + [ev] == [ev];
      assert Run(Step(b, ev), []) == Step(b, ev);
    } else {
      assert (evs + [ev])[1..] == evs[1..] + [ev];
      RunSnoc(Step(b, evs[0]), evs[1..], ev);
    }
  }

  /** After any run the stored error is the outstanding one: the last throw not followed by a reset. */
  lemma {:induction false} RunErrorIsOutstanding(b: Boundary, evs: seq<HostEvent>)
    ensures Run(b, evs).state.error == Outstanding(b.state.error, evs)
    decreases |evs|
  {
    if |evs| > 0 {
      var front := evs[..|evs| - 1];
      var ev := evs[|evs| - 1];
      assert evs == front + [ev];
      RunSnoc(b, front, ev);
      RunErrorIsOutstanding(b, front);
    }
  }

  /** Without throws, the outstanding error can only go away. */
  lemma {:induction false} NoThrowNoError(initial: Option<ErrorValue>, evs: seq<HostEvent>)
    requires forall i :: 0 <= i < |evs| ==> !evs[i].Throw?
    ensures Outstanding(initial, evs) == None || Outstanding(initial, evs) == initial
    decreases |evs|
  {
    if |evs| > 0 {
      assert !evs[|evs| - 1].Throw?;
      NoThrowNoError(initial, evs[..|evs| - 1]);
    }
  }

  /**
   A boundary that starts healthy and sees no throw renders its current
   children after every prefix of the events, however often it re-renders.
   */
  lemma HealthyWithoutThrowsRendersChildren(b: Boundary, evs: seq<HostEvent>)
    requires b.state.error.None?
    requires forall i :: 0 <= i < |evs| ==> !evs[i].Throw?
    ensures forall k :: 0 <= k <= |evs| ==> Render(Run(b, evs[..k])) == Children(Run(b, evs[..k]).children)
  {
    forall k | 0 <= k <= |evs|
      ensures Render(Run(b, evs[..k])) == Children(Run(b, evs[..k]).children)
    {
      RunErrorIsOutstanding(b, evs[..k]);
      NoThrowNoError(b.state.error, evs[..k]);
    }
  }

  /**
   While failed, the fallback is always handed the same reset callback, the
   one of the instance the events started from.
   */
  lemma ResetHandleStable(b: Boundary, evs: seq<HostEvent>)
    requires Run(b, evs).state.error.Some?
    ensures Render(Run(b, evs)).RenderCall? ==> Render(Run(b, evs)).fallbackProps.resetErrorBoundary == ResetHandle(b.instance)
    ensures Render(Run(b, evs)).ComponentInstance? ==> Render(Run(b, evs)).fallbackProps.resetErrorBoundary == ResetHandle(b.instance)
  {
  }

  /** `onError`/`onReset` calls in a concatenation are those of its parts. */
  lemma {:induction false} ReportsAppend(t: seq<Effect>, u: seq<Effect>)
    ensures ErrorReports(t + u) == ErrorReports(t) + ErrorReports(u)
    ensures ResetReports(t + u) == ResetReports(t) + ResetReports(u)
    decreases |t|
  {
    if |t| == 0 {
      assert t + u == u;
    } else {
      assert (t + u)[1..] == t[1..] + u;
      ReportsAppend(t[1..], u);
    }
  }

  /**
   While the boundary has a usable fallback and re-renders keep supplying the
   same callbacks, every throw calls `onError` exactly once and every reset
   calls `onReset` exactly once when those callbacks are supplied, and never
   otherwise. Without re-renders the props stay as they were.
   */
  lemma {:induction false} CallbacksOncePerEvent(b: Boundary, evs: seq<HostEvent>)
    requires SelectStrategy(b.props).Some?
    requires RerendersKeepCallbacks(b.props, evs)
    ensures ErrorReports(Run(b, evs).trace) ==
      ErrorReports(b.trace) + (if b.props.onError.Some? then Throws(evs) else 0)
    ensures ResetReports(Run(b, evs).trace) ==
      ResetReports(b.trace) + (if b.props.onReset.Some? then Resets(evs) else 0)
    ensures PropsFixed(evs) ==> Run(b, evs).props == b.props
    decreases |evs|
  {
    if |evs| > 0 {
      var b1 := Step(b, evs[0]);
      var added := b1.trace[|b.trace|..];
      assert b1.trace == b.trace + added;
      ReportsAppend(b.trace, added);
      match evs[0] {
        case Throw(e, info) =>
          if b.props.onError.Some? {
            assert added == [OnErrorCalled(b.props.onError.value, e, info.componentStack)];
            assert ErrorReports(added) == 1 && ResetReports(added) == 0 by {
              assert added[1..] == [];
            }
          } else {
            assert added == [];
          }
        case ResetInvoked =>
          if b.props.onReset.Some? {
            assert added == [OnResetCalled(b.props.onReset.value), StateReset];
            assert ErrorReports(added) == 0 && ResetReports(added) == 1 by {
              assert added[1..] == [StateReset];
              assert added[1..][1..] == [];
              assert ErrorReports(added[1..]) == 0 && ResetReports(added[1..]) == 0;
            }
          } else {
            assert added == [StateReset];
            assert ErrorReports(added) == 0 && ResetReports(added) == 0 by {
              assert added[1..] == [];
            }
          }
        case Rerender(p, c) =>
          assert added == [];
          assert SameCallbacks(b.props, p);
      }
      assert RerendersKeepCallbacks(b1.props, evs[1..]) by {
        forall i | 0 <= i < |evs[1..]| && evs[1..][i].Rerender?
          ensures SameCallbacks(b1.props, evs[1..][i].props)
        {
          assert evs[1..][i] == evs[i + 1];
        }
      }
      assert PropsFixed(evs) ==> PropsFixed(evs[1..]) by {
        if PropsFixed(evs) {
          forall i | 0 <= i < |evs[1..]| ensures !evs[1..][i].Rerender? {
            assert evs[1..][i] == evs[i + 1];
          }
        }
      }
      CallbacksOncePerEvent(b1, evs[1..]);
    }
  }

  /**
   A boundary with no usable fallback does not report a throw: its render
   throws the configuration error instead, and `onError` is not called.
   */
  lemma UnconfiguredThrowIsNotReported(b: Boundary, e: ErrorValue, info: ErrorInfo)
    requires SelectStrategy(b.props).None?
    ensures Run(b, [Throw(e, info)]).trace == b.trace
    ensures Render(Run(b, [Throw(e, info)])) == ConfigError(ConfigErrorMessage)
  {
  }

  /**
   A boundary configured with only a `FallbackComponent` and an `onError`:
   a descendant's throw reports once to `onError` with the error and the
   component stack, and the boundary then shows the component with that error.
   */
  lemma ThrowWithComponentScenario(instance: nat, f: Component, log: Callback, children: Node, e: ErrorValue, info: ErrorInfo)
    ensures
      var b := Run(Mount(instance, BoundaryProps(Undefined, Some(f), NoRender, Some(log), None), children), [Throw(e, info)]);
      && b.trace == [OnErrorCalled(log, e, info.componentStack)]
      && Render(b) == ComponentInstance(f, FallbackProps(e, ResetHandle(instance)))
  {
  }

  /**
   A boundary configured with a static `fallback`: after a throw it shows
   that element whatever the error, and after a reset its children again.
   */
  lemma ThrowThenResetWithFallbackScenario(instance: nat, el: Node, children: Node, e: ErrorValue, info: ErrorInfo, onReset: Callback)
    ensures
      var b0 := Mount(instance, BoundaryProps(ElementValue(el), None, NoRender, None, Some(onReset)), children);
      && Render(Run(b0, [Throw(e, info)])) == FallbackElement(el)
      && Run(b0, [Throw(e, info), ResetInvoked]).trace == [OnResetCalled(onReset), StateReset]
      && Render(Run(b0, [Throw(e, info), ResetInvoked])) == Children(children)
  {
    var b0 := Mount(instance, BoundaryProps(ElementValue(el), None, NoRender, None, Some(onReset)), children);
    var b1 := Step(b0, Throw(e, info));
    assert [Throw(e, info), ResetInvoked][1..] == [ResetInvoked];
    assert [ResetInvoked][1..] == [];
    assert Run(b0, [Throw(e, info), ResetInvoked]) == Run(b1, [ResetInvoked]);
    assert Run(b1, [ResetInvoked]) == Run(Reset(b1), []);
  }
}
