/**
 * The wheel's 3D view: the loaded wheel model sits inside an error boundary that, once a
 * render of the model has failed, shows a placeholder message for good. The boundary is
 * given a simplified fallback wheel but never renders it.
 */
module WheelView {
  datatype Rendered = ModelWheel | ErrorPlaceholder | FallbackWheel

  class ErrorBoundary {
    var hasError: bool

    constructor ()
      ensures !hasError
    {
      hasError := false;
    }

    /** What the boundary renders; its `fallback` prop is not among the choices. */
    function Render(): (shown: Rendered)
      reads this
      ensures shown != FallbackWheel
      ensures shown == ErrorPlaceholder <==> hasError
    {
      if hasError then ErrorPlaceholder else ModelWheel
    }

    /**
     * One render pass: a child that throws sets the error flag, and nothing clears it, so
     * the placeholder stays once shown.
     */
    method RenderPass(childThrows: bool) returns (shown: Rendered)
      modifies this
      ensures hasError == (old(hasError) || childThrows)
      ensures shown == Render()
    {
      if childThrows {
        hasError := true;
      }
      shown := if hasError then ErrorPlaceholder else ModelWheel;
    }
  }

  /** What a sequence of render passes shows, pass by pass. */
  function Shown(throws: seq<bool>, failed: bool): (shown: seq<Rendered>)
    ensures |shown| == |throws|
  {
    if throws == [] then []
    else
      var nowFailed := failed || throws[0];
      [if nowFailed then ErrorPlaceholder else ModelWheel] + Shown(throws[1..], nowFailed)
  }

  /**
   * Over any run the fallback wheel never shows, the model shows exactly until the first
   * failure, and the placeholder shows from then on.
   */
  lemma {:induction false} ShownLatches(throws: seq<bool>, failed: bool)
    ensures forall i :: 0 <= i < |throws| ==> Shown(throws, failed)[i] != FallbackWheel
    ensures forall i :: 0 <= i < |throws| ==>
      (Shown(throws, failed)[i] == ErrorPlaceholder <==> failed || true in throws[..i + 1])
    decreases |throws|
  {
    if throws != [] {
      var nowFailed := failed || throws[0];
      ShownLatches(throws[1..], nowFailed);
      forall i | 0 <= i < |throws|
        ensures Shown(throws, failed)[i] == ErrorPlaceholder <==> failed || true in throws[..i + 1]
      {
        if i > 0 {
          assert Shown(throws, failed)[i] == Shown(throws[1..], nowFailed)[i - 1];
          assert throws[..i + 1] == [throws[0]] + throws[1..][..i];
        }
      }
    }
  }

  /** The mounted boundary through a run of render passes. */
  method RenderPasses(throws: seq<bool>) returns (shown: seq<Rendered>)
    ensures shown == Shown(throws, false)
    ensures forall i :: 0 <= i < |shown| ==> shown[i] != FallbackWheel
  {
    var boundary := new ErrorBoundary();
    shown := [];
    var i := 0;
    while i < |throws|
      invariant 0 <= i <= |throws|
      invariant shown + Shown(throws[i..], boundary.hasError) == Shown(throws, false)
    {
      assert throws[i..] == [throws[i]] + throws[i + 1..];
      var r := boundary.RenderPass(throws[i]);
      shown := shown + [r];
      i := i + 1;
    }
    ShownLatches(throws, false);
  }
}
