/**
 * The configuration state of a cover-flow view, as a value, and what each of
 * the view's operations does to it.
 *
 * The view stores the number of items it shows at once (an odd count of at
 * least three), derives from it the half-window on each side of the centre
 * item and the alpha step between neighbours, and on each measure pass copies
 * its paddings into a rectangle and computes the height left for the items
 * and the index of the centre item. The functions here are the specification
 * the methods of `CoverFlowViews.CoverFlowView` are proved against; the
 * lemmas are what the view promises about them.
 */
module CoverFlowState {
  import opened Wrappers
  import opened JavaInt

  /** Visible item count used when the layout attributes give none. */
  const DefaultVisibleCount: Int32 := 3
  /** Alpha of the outermost visible item; the field holding it is never reassigned. */
  const DefaultLowestAlpha: Int32 := 75
  /** Alpha of a fully opaque item. */
  const OpaqueAlpha: Int32 := 255

  const GravityTop: Int32 := 0
  const LayoutModeMatchParent: Int32 := 0
  const DefaultGravity: Int32 := GravityTop
  const DefaultLayoutMode: Int32 := LayoutModeMatchParent

  /** What the unfinished position routine returns for every index. */
  const NoPosition: Int32 := -1

  /** The four edges of an `android.graphics.Rect`, in its field order. */
  datatype Insets = Insets(left: Int32, top: Int32, right: Int32, bottom: Int32)

  /** The exceptions `setVisibleItemCount` can throw. */
  datatype Failure =
    | EvenVisibleCount        // IllegalArgumentException: the stored count is even
    | VisibleCountBelowThree  // IllegalArgumentException: the argument is below three
    | DivisionByZero          // ArithmeticException: the half-window is zero

  /**
   * The fields of the view that its logic reads or writes. `hasAdapter` says
   * whether the adapter reference is non-null; `paddingRect` is None while the
   * rectangle has not been allocated.
   */
  datatype ViewState = ViewState(
    visibleItemCount: Int32,
    halfVisibleItemCount: Int32,
    diverAlpha: Int32,
    itemOffset: Int32,
    itemCount: Int32,
    hasAdapter: bool,
    gravity: Int32,
    layoutMode: Int32,
    paddingRect: Option<Insets>)

  /** The state after a call, and the exception the call threw, if any. */
  datatype Effect = Effect(view: ViewState, thrown: Option<Failure>)

  /**
   * What a measure pass computed: nothing when it returned early, otherwise
   * the height left between the paddings, the index of the centre item and
   * the (discarded) result of the position routine.
   */
  datatype Measurement =
    | Skipped
    | Measured(availableHeight: Int32, mid: Int32, position: Int32)

  datatype MeasureEffect = MeasureEffect(view: ViewState, measurement: Measurement)

  /** The fields as the field initialisers leave them, before the attributes are read. */
  function Initial(): (s: ViewState)
    ensures s.visibleItemCount % 2 == 0
    ensures s.itemOffset == 0 && s.itemCount == 0
    ensures !s.hasAdapter && s.paddingRect.None?
  {
    ViewState(0, 0, 0, 0, 0, false, 0, 0, None)
  }

  /**
   * The object invariant of a constructed view: the stored count is odd and
   * at least three, the half-window and the alpha step are derived from it,
   * and the item offset and item count, which nothing assigns, are zero.
   */
  predicate Invariant(s: ViewState) {
    && s.visibleItemCount % 2 == 1
    && s.visibleItemCount >= 3
    && s.halfVisibleItemCount == s.visibleItemCount / 2
    && s.diverAlpha == (OpaqueAlpha - DefaultLowestAlpha) / s.halfVisibleItemCount
    && s.itemOffset == 0
    && s.itemCount == 0
  }

  /**
   * `setVisibleItemCount(n)`. Both the parity test and the half-window read
   * the STORED count; the argument `n` is only compared with three and is
   * never stored. The half-window is written before the division, so the
   * division by zero (stored count one) leaves it written.
   */
  function AfterSetVisibleItemCount(s: ViewState, n: Int32): (e: Effect)
    ensures e.thrown == Some(EvenVisibleCount) <==> s.visibleItemCount % 2 == 0
    ensures e.thrown == Some(VisibleCountBelowThree) <==> s.visibleItemCount % 2 == 1 && n < 3
    ensures e.thrown == Some(DivisionByZero) <==> s.visibleItemCount == 1 && n >= 3
    ensures e.thrown.None? <==> s.visibleItemCount % 2 == 1 && s.visibleItemCount != 1 && n >= 3
    ensures e.thrown.Some? && e.thrown != Some(DivisionByZero) ==> e.view == s
    ensures e.thrown == Some(DivisionByZero) ==> e.view == s.(halfVisibleItemCount := 0)
    ensures e.thrown.None? ==>
      && e.view == s.(halfVisibleItemCount := e.view.halfVisibleItemCount, diverAlpha := e.view.diverAlpha)
      && 2 * e.view.halfVisibleItemCount + 1 == s.visibleItemCount
      && 0 <= e.view.diverAlpha * e.view.halfVisibleItemCount <= OpaqueAlpha - DefaultLowestAlpha
    ensures e.thrown.None? && s.visibleItemCount > 0 ==>
      e.view.diverAlpha == (OpaqueAlpha - DefaultLowestAlpha) / e.view.halfVisibleItemCount
  {
    EvenTest(s.visibleItemCount);
    if Rem(s.visibleItemCount, 2) == 0 then
      Effect(s, Some(EvenVisibleCount))
    else if n < 3 then
      Effect(s, Some(VisibleCountBelowThree))
    else
      var half := ShiftRight1(s.visibleItemCount);
      var s' := s.(halfVisibleItemCount := half);
      if half == 0 then
        Effect(s', Some(DivisionByZero))
      else
        var step := Div(OpaqueAlpha - DefaultLowestAlpha, half);
        DivRemainder(OpaqueAlpha - DefaultLowestAlpha, half);
        AlphaStepOfPositiveHalf(half);
        Effect(s'.(diverAlpha := step), None)
  }

  /** For a positive half-window Java's quotient at `setVisibleItemCount` is Dafny's. */
  lemma AlphaStepOfPositiveHalf(half: int)
    requires half != 0
    ensures half > 0 ==> Div(OpaqueAlpha - DefaultLowestAlpha, half) == (OpaqueAlpha - DefaultLowestAlpha) / half
  {
    if half > 0 {
      DivOfNonNegatives(OpaqueAlpha - DefaultLowestAlpha, half);
    }
  }

  /**
   * The visible-count part of `initAttributes`: the count read from the
   * attributes is stored, then validated by `setVisibleItemCount`; gravity
   * and layout mode are stored only when that did not throw.
   */
  function AfterInitAttributes(s: ViewState, count: Int32, gravity: Int32, layoutMode: Int32): (e: Effect)
    ensures e.view.visibleItemCount == count
    ensures e.thrown.None? <==> count % 2 == 1 && count >= 3
    ensures e.thrown != Some(DivisionByZero)
    ensures e.thrown.Some? ==> e.view == s.(visibleItemCount := count)
    ensures e.thrown.None? ==>
      && e.view.gravity == gravity && e.view.layoutMode == layoutMode
      && e.view.halfVisibleItemCount == count / 2
      && e.view.diverAlpha == (OpaqueAlpha - DefaultLowestAlpha) / (count / 2)
    ensures e.thrown.None? ==>
      e.view == s.(visibleItemCount := count, halfVisibleItemCount := count / 2,
                   diverAlpha := (OpaqueAlpha - DefaultLowestAlpha) / (count / 2),
                   gravity := gravity, layoutMode := layoutMode)
  {
    var e := AfterSetVisibleItemCount(s.(visibleItemCount := count), count);
    if e.thrown.Some? then e
    else
      DivOfNonNegatives(OpaqueAlpha - DefaultLowestAlpha, count / 2);
      Effect(e.view.(gravity := gravity, layoutMode := layoutMode), None)
  }

  /** The view built from the layout attributes, or the exception its constructor throws. */
  function Construct(count: Int32, gravity: Int32, layoutMode: Int32): (e: Effect)
    ensures e.thrown.None? <==> count % 2 == 1 && count >= 3
    ensures e.thrown.Some? ==> e.view == Initial().(visibleItemCount := count)
  {
    AfterInitAttributes(Initial(), count, gravity, layoutMode)
  }

  /** `setAdapter`: only the adapter reference changes. */
  function AfterSetAdapter(s: ViewState, present: bool): (s': ViewState)
    ensures s'.hasAdapter == present
    ensures s'.(hasAdapter := s.hasAdapter) == s
  {
    s.(hasAdapter := present)
  }

  /**
   * `initPaddingRect`: the rectangle is allocated when missing and all four
   * paddings are copied into it, so its old contents never matter.
   */
  function AfterInitPaddingRect(s: ViewState, padding: Insets): (s': ViewState)
    ensures s'.paddingRect == Some(padding)
    ensures s'.(paddingRect := s.paddingRect) == s
  {
    s.(paddingRect := Some(padding))
  }

  /** `calculateActuallyPosition`: an unfinished stub that answers the same for every index. */
  function CalculateActuallyPosition(index: Int32): (p: Int32)
    ensures p < 0
  {
    NoPosition
  }

  /**
   * `onMeasure`, given the measured height size and the view's paddings. It
   * returns early when there is no adapter and the item count is zero;
   * otherwise it refreshes the padding rectangle, subtracts the bottom and
   * top paddings from the height (with Java's wrap-around), rounds the item
   * offset half up to the centre index and asks for the position of the
   * first visible item.
   */
  function AfterMeasure(s: ViewState, heightSize: Int32, padding: Insets): (m: MeasureEffect)
    ensures m.measurement.Skipped? <==> !s.hasAdapter && s.itemCount == 0
    ensures m.measurement.Skipped? ==> m.view == s
    ensures m.measurement.Measured? ==>
      && m.view == AfterInitPaddingRect(s, padding)
      && (heightSize - padding.bottom - padding.top - m.measurement.availableHeight) % TwoTo32 == 0
      && (MinInt32 <= heightSize - padding.bottom - padding.top <= MaxInt32 ==>
            m.measurement.availableHeight == heightSize - padding.bottom - padding.top)
      && m.measurement.mid == s.itemOffset
      && m.measurement.position == NoPosition
  {
    if !s.hasAdapter && s.itemCount == 0 then
      MeasureEffect(s, Skipped)
    else
      var s' := AfterInitPaddingRect(s, padding);
      var rect := s'.paddingRect.value;
      var availableHeight := Wrap32(Wrap32(heightSize - rect.bottom) - rect.top);
      WrapTwice(heightSize - rect.bottom, rect.top);
      var mid := FloorToInt(s.itemOffset as real + 0.5);
      MidIsItemOffset(s.itemOffset);
      var position := CalculateActuallyPosition(Wrap32(mid - s.halfVisibleItemCount));
      MeasureEffect(s', Measured(availableHeight, mid, position))
  }

  /** Subtracting after a wrap-around gives the wrap-around of the exact difference. */
  lemma WrapTwice(x: int, y: Int32)
    ensures Wrap32(Wrap32(x) - y) == Wrap32(x - y)
  {
    var w := Wrap32(x);
    assert (x - w) % TwoTo32 == 0;
    var k := (x - w) / TwoTo32;
    assert x - w == k * TwoTo32;
    var u, v := Wrap32(w - y), Wrap32(x - y);
    assert (w - y - u) % TwoTo32 == 0 && (x - y - v) % TwoTo32 == 0;
    var i, j := (w - y - u) / TwoTo32, (x - y - v) / TwoTo32;
    assert w - y - u == i * TwoTo32 && x - y - v == j * TwoTo32;
    assert u - v == (j - i - k) * TwoTo32;
  }

  /**
   * Rounding an `int` offset half up gives the offset back: `offset + 0.5`
   * is exact in a double for every `int`, and its floor is the offset.
   */
  lemma MidIsItemOffset(offset: Int32)
    ensures FloorToInt(offset as real + 0.5) == offset
  {
    assert (offset as real + 0.5).Floor == offset;
  }

  /**
   * On a constructed view `setVisibleItemCount` changes nothing: it either
   * throws because the argument is below three, or recomputes from the
   * unchanged stored count the half-window and alpha step it already has.
   */
  lemma SetVisibleItemCountKeepsConstructedView(s: ViewState, n: Int32)
    requires Invariant(s)
    ensures AfterSetVisibleItemCount(s, n).view == s
    ensures AfterSetVisibleItemCount(s, n).thrown == (if n < 3 then Some(VisibleCountBelowThree) else None)
  {
  }

  /**
   * A view is constructed exactly when the count in its attributes is odd
   * and at least three, and a constructed view satisfies the invariant;
   * the constructor never reaches the division by zero.
   */
  lemma ConstructionEstablishesInvariant(count: Int32, gravity: Int32, layoutMode: Int32)
    ensures Construct(count, gravity, layoutMode).thrown.None? <==> count % 2 == 1 && count >= 3
    ensures Construct(count, gravity, layoutMode).thrown != Some(DivisionByZero)
    ensures Construct(count, gravity, layoutMode).thrown.None? ==>
      && Invariant(Construct(count, gravity, layoutMode).view)
      && Construct(count, gravity, layoutMode).view
           == ViewState(count, count / 2, (OpaqueAlpha - DefaultLowestAlpha) / (count / 2),
                        0, 0, false, gravity, layoutMode, None)
  {
  }

  /**
   * The alpha step of a constructed view: `diverAlpha` steps from opaque to
   * the lowest alpha over the half-window without overshooting it, by less
   * than one step; it is at least one, except that it is zero once the
   * half-window exceeds the 180 alpha levels, at 363 visible items.
   */
  lemma DiverAlphaBounds(s: ViewState)
    requires Invariant(s)
    ensures s.halfVisibleItemCount >= 1
    ensures 2 * s.halfVisibleItemCount + 1 == s.visibleItemCount
    ensures OpaqueAlpha - s.diverAlpha * s.halfVisibleItemCount >= DefaultLowestAlpha
    ensures OpaqueAlpha - s.diverAlpha * s.halfVisibleItemCount < DefaultLowestAlpha + s.halfVisibleItemCount
    ensures s.diverAlpha == 0 <==> s.visibleItemCount >= 363
  {
    StepOverHalfWindow(s.visibleItemCount / 2, OpaqueAlpha - DefaultLowestAlpha);
  }

  /** Dividing `levels` alpha levels over `half` steps: the steps fall short by less than one step. */
  lemma StepOverHalfWindow(half: int, levels: nat)
    requires half >= 1
    ensures 0 <= levels - (levels / half) * half < half
    ensures levels / half == 0 <==> half > levels
  {
    var step := levels / half;
    assert levels == step * half + levels % half;
    if step != 0 {
      AtMostProduct(half, step);
    }
  }

  /** A call on a constructed view, with the arguments the view is given. */
  datatype Call =
    | SetVisibleItemCount(n: Int32)
    | SetAdapter(present: bool)
    | Measure(heightSize: Int32, padding: Insets)

  /** The state after one call; an exception leaves the state the call had reached. */
  function Apply(s: ViewState, c: Call): ViewState {
    match c
    case SetVisibleItemCount(n) => AfterSetVisibleItemCount(s, n).view
    case SetAdapter(present) => AfterSetAdapter(s, present)
    case Measure(heightSize, padding) => AfterMeasure(s, heightSize, padding).view
  }

  /** The state after a sequence of calls, in order. */
  function Replay(s: ViewState, calls: seq<Call>): ViewState
    decreases |calls|
  {
    if calls == [] then s else Replay(Apply(s, calls[0]), calls[1..])
  }

  /**
   * The invariant holds for the whole lifetime of a constructed view: no call
   * writes the stored count, and none changes the half-window, the alpha
   * step, the item offset or the item count.
   */
  lemma {:induction false} InvariantForLifetime(s: ViewState, calls: seq<Call>)
    requires Invariant(s)
    ensures Invariant(Replay(s, calls))
    ensures Replay(s, calls).visibleItemCount == s.visibleItemCount
    ensures Replay(s, calls).halfVisibleItemCount == s.halfVisibleItemCount
    ensures Replay(s, calls).diverAlpha == s.diverAlpha
    decreases |calls|
  {
    if calls != [] {
      var s' := Apply(s, calls[0]);
      match calls[0] {
        case SetVisibleItemCount(n) => SetVisibleItemCountKeepsConstructedView(s, n);
        case SetAdapter(_) =>
        case Measure(_, _) =>
      }
      InvariantForLifetime(s', calls[1..]);
    }
  }

  /**
   * On a constructed view the measure pass returns early exactly when there
   * is no adapter, since the item count is always zero; otherwise the centre
   * index is the item offset, zero.
   */
  lemma MeasureSkipsOnlyWithoutAdapter(s: ViewState, heightSize: Int32, padding: Insets)
    requires Invariant(s)
    ensures AfterMeasure(s, heightSize, padding).measurement.Skipped? <==> !s.hasAdapter
    ensures AfterMeasure(s, heightSize, padding).measurement.Measured? ==>
      AfterMeasure(s, heightSize, padding).measurement.mid == 0
  {
  }

  /** Copying the paddings twice leaves the rectangle as copying them once does. */
  lemma InitPaddingRectIdempotent(s: ViewState, padding: Insets)
    ensures AfterInitPaddingRect(AfterInitPaddingRect(s, padding), padding) == AfterInitPaddingRect(s, padding)
  {
  }

  /** The position routine ignores its index. */
  lemma PositionIgnoresIndex(i: Int32, j: Int32)
    ensures CalculateActuallyPosition(i) == CalculateActuallyPosition(j) == NoPosition
  {
  }

  /**
   * The one- and two-argument constructors pass no attributes, so the view
   * gets the defaults: three visible items, a half-window of one and the
   * whole 180 alpha levels as one step, top gravity and match-parent layout.
   */
  lemma DefaultConstruction()
    ensures Construct(DefaultVisibleCount, DefaultGravity, DefaultLayoutMode)
      == Effect(ViewState(3, 1, 180, 0, 0, false, GravityTop, LayoutModeMatchParent, None), None)
  {
  }
}
