# CoverFlowView configuration model

A Dafny model of the configuration state of `CoverFlowView`, an Android
widget meant to show a "cover flow" carousel: a row of items where the centre
item is full size and opaque and its neighbours fade out towards a lowest
alpha. The view as written is unfinished; what it does is:

- store a visible item count, which must be odd and at least three, and
  derive from it the half-window `halfVisibleItemCount` on each side of the
  centre item and the per-step alpha decrement `diverAlpha`
  (`(255 - 75) / half`, an integer quotient);
- validate that count while the view is constructed from its layout
  attributes, and store gravity and layout mode as plain integers;
- keep a nullable adapter;
- on each measure pass, unless there is no adapter and no items, copy the four
  paddings into a lazily allocated rectangle, compute the height left between
  the top and bottom paddings and the index of the centre item (the integer
  item offset rounded half up), and call a position routine that is a stub
  returning -1.

Files:

- `wrappers.dfy`: `Option` and `Result`.
- `java_int.dfy` (module `JavaInt`): Java's 32-bit `int` as the subset type
  `Int32`, and the Java operators the view uses, written out because Dafny's
  differ: truncating `/`, dividend-signed `%`, the arithmetic shift `>> 1`,
  wrap-around subtraction and the saturating `(int) Math.floor` cast.
- `cover_flow_state.dfy` (module `CoverFlowState`): the view's fields as a
  value `ViewState`, one function per operation giving the state after the
  call and the exception it threw (`Effect`), the object invariant
  `Invariant`, and the lemmas about them.
- `cover_flow_view.dfy` (module `CoverFlowViews`): the view as a class whose
  methods update its fields in place, each proved to perform the transition
  of `CoverFlowState` on `State()`, and the padding `Rect` as an object that
  is allocated once and then reused.

Java exceptions are modelled as values of `Failure`, returned as `thrown`;
the state a method leaves behind when it throws is modelled exactly (the
division by zero happens after the half-window has been written).

What the code does and does not do, as the model records it:

- `setVisibleItemCount(n)` never rejects an even `n`: both its parity test
  and its half-window read the stored field `mVisibleItemCount`, and `n` is
  only compared with three and never stored. On a constructed view the setter
  therefore changes nothing: it throws when `n < 3` and otherwise recomputes
  the values the view already has (`SetVisibleItemCountKeepsConstructedView`).
- The file has no layout engine, per-item alpha or scale falloff, reflection
  geometry, draw ordering or scroll state: the position routine returns -1
  for every index and `onMeasure` discards its result.
- Gravity and layout mode are plain `int`s; the `@IntDef` annotations on them
  are not enforced at run time, so any value is stored.

## Model

| member | source | states |
|---|---|---|
| `JavaInt.ShiftRight1` | coverflowviewlibrary/src/main/java/com/youku/coverflowviewlibrary/CoverFlowView.java:163 | `x >> 1` is the floor of `x / 2`: `2r <= x <= 2r + 1`, also for negative `x` |
| `JavaInt.Div` | coverflowviewlibrary/src/main/java/com/youku/coverflowviewlibrary/CoverFlowView.java:164 | the truncating quotient of the exact operands, as Java's `/` on `int` computes it (except the overflow at `MIN_VALUE / -1`): magnitude is the quotient of the magnitudes (never above the dividend's), sign positive only for like signs and negative only for unlike signs |
| `JavaInt.DivRemainder` | coverflowviewlibrary/src/main/java/com/youku/coverflowviewlibrary/CoverFlowView.java:164 | what the truncating quotient leaves over is the magnitudes' remainder carrying the dividend's sign |
| `JavaInt.DivOfNonNegatives` | coverflowviewlibrary/src/main/java/com/youku/coverflowviewlibrary/CoverFlowView.java:164 | on a non-negative dividend and positive divisor Java's quotient equals Dafny's |
| `JavaInt.Rem` | coverflowviewlibrary/src/main/java/com/youku/coverflowviewlibrary/CoverFlowView.java:155 | Java's `%`: the remainder of the magnitudes carrying the dividend's sign, hence below the divisor in magnitude and zero or of the dividend's sign |
| `JavaInt.EvenTest` | coverflowviewlibrary/src/main/java/com/youku/coverflowviewlibrary/CoverFlowView.java:155 | Java's `x % 2 == 0` holds exactly when Dafny's does, negative `x` included |
| `JavaInt.Wrap32` | coverflowviewlibrary/src/main/java/com/youku/coverflowviewlibrary/CoverFlowView.java:180-182 | an `int` congruent to the exact result modulo 2^32, equal to it when it fits |
| `JavaInt.FloorToInt` | coverflowviewlibrary/src/main/java/com/youku/coverflowviewlibrary/CoverFlowView.java:184 | `(int) Math.floor(x)`: the integer with `r <= x < r + 1` when the floor fits in an `int`, else the nearer `int` bound |
| `CoverFlowState.Initial` | coverflowviewlibrary/src/main/java/com/youku/coverflowviewlibrary/CoverFlowView.java:43-64 | before the attributes are read the stored count is even (zero), offset and item count are zero, no adapter, no rectangle |
| `CoverFlowState.AfterSetVisibleItemCount` | coverflowviewlibrary/src/main/java/com/youku/coverflowviewlibrary/CoverFlowView.java:154-165 | throws "even" iff the STORED count is even; throws "below three" iff it is odd and the argument is below 3; throws division by zero iff the stored count is 1 and the argument at least 3; both argument errors change no field; the stored count is never written; on success only half and alpha change, `2*half + 1` is the stored count, `0 <= diverAlpha*half <= 180`, and for a positive count `diverAlpha == 180 / half` |
| `CoverFlowState.AfterInitAttributes` | coverflowviewlibrary/src/main/java/com/youku/coverflowviewlibrary/CoverFlowView.java:105-130 | the attribute count is stored; the call succeeds iff it is odd and at least 3, never reaches the division by zero, and on success the state is the old one with exactly count, half `count / 2`, alpha `180 / half`, gravity and layout mode replaced; on failure only the count was written |
| `CoverFlowState.Construct` | coverflowviewlibrary/src/main/java/com/youku/coverflowviewlibrary/CoverFlowView.java:91-111 | the constructor path from the field initialisers succeeds iff the attribute count is odd and at least 3; when it throws, only the count has left its initial value |
| `CoverFlowState.DefaultConstruction` | coverflowviewlibrary/src/main/java/com/youku/coverflowviewlibrary/CoverFlowView.java:83-111 | with no attributes the view gets three visible items, half 1, alpha step 180, top gravity and match-parent layout |
| `CoverFlowState.AfterSetAdapter` | coverflowviewlibrary/src/main/java/com/youku/coverflowviewlibrary/CoverFlowView.java:150-152 | the adapter flag becomes whether the new adapter is non-null, and no other field changes |
| `CoverFlowState.AlphaStepOfPositiveHalf` | coverflowviewlibrary/src/main/java/com/youku/coverflowviewlibrary/CoverFlowView.java:164 | for a positive half-window the alpha step Java computes is `180 / half` |
| `CoverFlowState.ConstructionEstablishesInvariant` | coverflowviewlibrary/src/main/java/com/youku/coverflowviewlibrary/CoverFlowView.java:91-111 | construction succeeds iff the attribute count is odd and at least 3, and then yields exactly the view with that count, its half, its alpha step, the given gravity and layout mode, no adapter, no rectangle, satisfying the invariant |
| `CoverFlowState.DiverAlphaBounds` | coverflowviewlibrary/src/main/java/com/youku/coverflowviewlibrary/CoverFlowView.java:163-164 | on a constructed view `half >= 1` (no division by zero), `2*half + 1` is the count, stepping `half` times from 255 ends at or above 75 and below `75 + half`, and the step is zero exactly from 363 visible items on |
| `CoverFlowState.SetVisibleItemCountKeepsConstructedView` | coverflowviewlibrary/src/main/java/com/youku/coverflowviewlibrary/CoverFlowView.java:154-165 | on a constructed view the setter leaves every field as it was, throwing "below three" iff the argument is below 3 |
| `CoverFlowState.InvariantForLifetime` | coverflowviewlibrary/src/main/java/com/youku/coverflowviewlibrary/CoverFlowView.java:150-186 | after any sequence of setter, adapter and measure calls a constructed view still satisfies the invariant with the same count, half and alpha step |
| `CoverFlowState.AfterInitPaddingRect` | coverflowviewlibrary/src/main/java/com/youku/coverflowviewlibrary/CoverFlowView.java:194-203 | the rectangle holds exactly the four paddings afterwards, whatever it held before, and nothing else changes |
| `CoverFlowState.InitPaddingRectIdempotent` | coverflowviewlibrary/src/main/java/com/youku/coverflowviewlibrary/CoverFlowView.java:194-203 | copying the same paddings twice gives the state copying once gives |
| `CoverFlowState.CalculateActuallyPosition` | coverflowviewlibrary/src/main/java/com/youku/coverflowviewlibrary/CoverFlowView.java:188-191 | the result is negative, never an item position |
| `CoverFlowState.PositionIgnoresIndex` | coverflowviewlibrary/src/main/java/com/youku/coverflowviewlibrary/CoverFlowView.java:188-191 | every index gets the same answer, -1 |
| `CoverFlowState.AfterMeasure` | coverflowviewlibrary/src/main/java/com/youku/coverflowviewlibrary/CoverFlowView.java:168-186 | returns early, changing nothing, iff there is no adapter and the item count is zero; otherwise the rectangle holds the paddings, the available height is the height size minus bottom and top padding (congruent modulo 2^32, equal when it fits in an `int`), `mid` is the item offset, and the position is -1 |
| `CoverFlowState.WrapTwice` | coverflowviewlibrary/src/main/java/com/youku/coverflowviewlibrary/CoverFlowView.java:180-182 | wrapping after each of the two subtractions gives the wrap-around of the exact difference |
| `CoverFlowState.MidIsItemOffset` | coverflowviewlibrary/src/main/java/com/youku/coverflowviewlibrary/CoverFlowView.java:184 | rounding an `int` offset half up yields the offset itself |
| `CoverFlowState.MeasureSkipsOnlyWithoutAdapter` | coverflowviewlibrary/src/main/java/com/youku/coverflowviewlibrary/CoverFlowView.java:170-172 | on a constructed view the early return happens iff the adapter is null, and otherwise `mid` is 0 |
| `CoverFlowViews.Rect.constructor` | coverflowviewlibrary/src/main/java/com/youku/coverflowviewlibrary/CoverFlowView.java:196 | a new rectangle has four zero edges |
| `CoverFlowViews.CoverFlowView.constructor` | coverflowviewlibrary/src/main/java/com/youku/coverflowviewlibrary/CoverFlowView.java:43-64 | the fields as their initialisers leave them |
| `CoverFlowViews.CoverFlowView.Create` | coverflowviewlibrary/src/main/java/com/youku/coverflowviewlibrary/CoverFlowView.java:91-102 | a fresh, valid view with no adapter and no rectangle iff the attribute count is odd and at least 3, otherwise the exception `initAttributes` threw |
| `CoverFlowViews.CoverFlowView.InitAttributes` | coverflowviewlibrary/src/main/java/com/youku/coverflowviewlibrary/CoverFlowView.java:105-130 | performs `AfterInitAttributes` on the fields and returns its exception |
| `CoverFlowViews.CoverFlowView.SetAdapter` | coverflowviewlibrary/src/main/java/com/youku/coverflowviewlibrary/CoverFlowView.java:150-152 | stores the adapter, changes nothing else, keeps the invariant |
| `CoverFlowViews.CoverFlowView.SetVisibleItemCount` | coverflowviewlibrary/src/main/java/com/youku/coverflowviewlibrary/CoverFlowView.java:154-165 | performs `AfterSetVisibleItemCount` on the fields, never writes the stored count, and on a valid view changes no field |
| `CoverFlowViews.CoverFlowView.InitPaddingRect` | coverflowviewlibrary/src/main/java/com/youku/coverflowviewlibrary/CoverFlowView.java:194-203 | allocates a fresh rectangle only when there is none, else keeps the same object, and leaves the four paddings in it |
| `CoverFlowViews.CoverFlowView.OnMeasure` | coverflowviewlibrary/src/main/java/com/youku/coverflowviewlibrary/CoverFlowView.java:167-186 | performs `AfterMeasure` on the fields, reuses an existing rectangle, and keeps the invariant |

## Left out

- Reading the layout attributes (`obtainStyledAttributes`, `TypedArray`,
  `recycle`): the visible count, gravity and layout mode it yields are
  parameters of `Create` and `InitAttributes`.
- The reflection height fraction (clamped to 100 and divided by 100) and the
  reflection gap (converted from density-independent pixels): floating point
  depending on the display metrics.
- The matrices, paints, draw filter, scroller and interpolator created by
  `initTransformerMatrix`, `initPaint` and `init`: they are never used by the
  view's logic.
- The debug log line, the call to `super.onMeasure`, and `MeasureSpec`
  decoding: `OnMeasure` takes the height size directly; the width size and the
  height mode the source reads are never used, so they are not parameters.
- `getPaddingLeft` and its siblings: the paddings are a parameter of
  `OnMeasure` and `InitPaddingRect`.
- The one-, two- and three-argument Java constructors are one `Create`; the
  `Context` they pass is platform glue.
- The adapter's contents: the view only tests it for null, so `Adapter` is an
  empty class.
- `mDiverAlpha` is a `float` field, but the value assigned to it is an
  integer quotient, which it holds exactly; it is modelled as an `int`.
- JavaInt.Div: the truncating quotient of unbounded integers; Java's overflow
  of `MIN_VALUE / -1` back to `MIN_VALUE` is not modelled, because the only
  division in the view has the dividend 180.
