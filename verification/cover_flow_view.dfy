/**
 * The cover-flow view as an object whose methods update its fields in place.
 * Each method is specified by the transition of `CoverFlowState` it performs
 * on the value `State()` of the fields, plus what it does to object identity
 * (the padding rectangle is allocated once and then reused).
 */
module CoverFlowViews {
  import opened Wrappers
  import opened JavaInt
  import opened CoverFlowState

  /** An `android.graphics.Rect`: four mutable `int` edges. */
  class Rect {
    var left: Int32
    var top: Int32
    var right: Int32
    var bottom: Int32

    constructor ()
      ensures Edges() == Insets(0, 0, 0, 0)
    {
      left, top, right, bottom := 0, 0, 0, 0;
    }

    function Edges(): Insets
      reads this
    {
      Insets(left, top, right, bottom)
    }
  }

  /** The adapter handed to the view; the view reads nothing of it but whether it is null. */
  class Adapter {
  }

  class CoverFlowView {
    var gravity: Int32
    var layoutMode: Int32
    var diverAlpha: Int32
    const lowestAlpha: Int32 := DefaultLowestAlpha
    var visibleItemCount: Int32
    var halfVisibleItemCount: Int32
    var itemOffset: Int32
    var paddingRect: Rect?
    var adapter: Adapter?
    var itemCount: Int32

    /** The fields as a value. */
    function State(): ViewState
      reads this, paddingRect
    {
      ViewState(visibleItemCount, halfVisibleItemCount, diverAlpha, itemOffset, itemCount,
                adapter != null, gravity, layoutMode,
                if paddingRect == null then None else Some(paddingRect.Edges()))
    }

    /** The object invariant of a constructed view. */
    predicate Valid()
      reads this, paddingRect
    {
      Invariant(State())
    }

    /** The field initialisers, which run before `initAttributes`. */
    constructor ()
      ensures State() == Initial()
      ensures paddingRect == null && adapter == null
    {
      gravity, layoutMode, diverAlpha := 0, 0, 0;
      visibleItemCount, halfVisibleItemCount := 0, 0;
      itemOffset, itemCount := 0, 0;
      paddingRect, adapter := null, null;
    }

    /**
     * The three-argument constructor: field initialisers, then the attributes
     * (visible count, gravity, layout mode) read from the layout. The view is
     * returned only when `initAttributes` did not throw.
     */
    static method Create(visibleItem: Int32, gravity: Int32, layoutMode: Int32)
      returns (r: Result<CoverFlowView, Failure>)
      ensures r.Success? <==> visibleItem % 2 == 1 && visibleItem >= 3
      ensures r.Failure? ==> Some(r.error) == Construct(visibleItem, gravity, layoutMode).thrown
      ensures r.Success? ==>
        && fresh(r.value)
        && r.value.paddingRect == null && r.value.adapter == null
        && r.value.State() == Construct(visibleItem, gravity, layoutMode).view
        && r.value.Valid()
    {
      var view := new CoverFlowView();
      var thrown := view.InitAttributes(visibleItem, gravity, layoutMode);
      ConstructionEstablishesInvariant(visibleItem, gravity, layoutMode);
      if thrown.Some? {
        r := Failure(thrown.value);
      } else {
        r := Success(view);
      }
    }

    /**
     * `initAttributes`, for the values it takes from the attributes: stores
     * the visible count, validates it, then stores gravity and layout mode.
     */
    method InitAttributes(visibleItem: Int32, gravityValue: Int32, layoutModeValue: Int32)
      returns (thrown: Option<Failure>)
      modifies this
      ensures paddingRect == old(paddingRect) && adapter == old(adapter)
      ensures Effect(State(), thrown)
              == AfterInitAttributes(old(State()), visibleItem, gravityValue, layoutModeValue)
    {
      visibleItemCount := visibleItem;
      thrown := SetVisibleItemCount(visibleItem);
      if thrown.Some? {
        return;
      }
      gravity := gravityValue;
      layoutMode := layoutModeValue;
    }

    /** `setAdapter`: stores the adapter, which may be null. */
    method SetAdapter(a: Adapter?)
      modifies this
      ensures adapter == a && paddingRect == old(paddingRect)
      ensures State() == AfterSetAdapter(old(State()), a != null)
      ensures old(Valid()) ==> Valid()
    {
      adapter := a;
    }

    /**
     * `setVisibleItemCount(n)`: validates the STORED count and the argument,
     * then derives the half-window and the alpha step from the stored count.
     * The argument is never stored.
     */
    method SetVisibleItemCount(n: Int32) returns (thrown: Option<Failure>)
      modifies this
      ensures paddingRect == old(paddingRect) && adapter == old(adapter)
      ensures visibleItemCount == old(visibleItemCount)
      ensures Effect(State(), thrown) == AfterSetVisibleItemCount(old(State()), n)
      ensures old(Valid()) ==> Valid() && State() == old(State())
    {
      ghost var before := State();
      if Rem(visibleItemCount, 2) == 0 {
        return Some(EvenVisibleCount);
      }
      if n < 3 {
        return Some(VisibleCountBelowThree);
      }
      halfVisibleItemCount := ShiftRight1(visibleItemCount);
      if halfVisibleItemCount == 0 {
        return Some(DivisionByZero);
      }
      diverAlpha := Div(OpaqueAlpha - lowestAlpha, halfVisibleItemCount);
      thrown := None;
      if Invariant(before) {
        SetVisibleItemCountKeepsConstructedView(before, n);
      }
    }

    /**
     * `initPaddingRect`: allocates the rectangle on first use and copies the
     * four paddings into it.
     */
    method InitPaddingRect(padding: Insets)
      modifies this, paddingRect
      ensures paddingRect != null
      ensures old(paddingRect) != null ==> paddingRect == old(paddingRect)
      ensures old(paddingRect) == null ==> fresh(paddingRect)
      ensures adapter == old(adapter)
      ensures State() == AfterInitPaddingRect(old(State()), padding)
    {
      if paddingRect == null {
        paddingRect := new Rect();
      }
      paddingRect.left := padding.left;
      paddingRect.right := padding.right;
      paddingRect.top := padding.top;
      paddingRect.bottom := padding.bottom;
    }

    /**
     * `onMeasure`, given the height size of the measure spec and the view's
     * paddings; returns what the pass computed, which the source keeps in
     * locals and discards.
     */
    method OnMeasure(heightSize: Int32, padding: Insets) returns (m: Measurement)
      modifies this, paddingRect
      ensures adapter == old(adapter)
      ensures old(paddingRect) != null ==> paddingRect == old(paddingRect)
      ensures old(paddingRect) == null && m.Measured? ==> fresh(paddingRect)
      ensures MeasureEffect(State(), m) == AfterMeasure(old(State()), heightSize, padding)
      ensures old(Valid()) ==> Valid()
    {
      if adapter == null && itemCount == 0 {
        return Skipped;
      }
      InitPaddingRect(padding);
      var availableHeight := Wrap32(Wrap32(heightSize - paddingRect.bottom) - paddingRect.top);
      var mid := FloorToInt(itemOffset as real + 0.5);
      var position := CalculateActuallyPosition(Wrap32(mid - halfVisibleItemCount));
      m := Measured(availableHeight, mid, position);
    }
  }
}
