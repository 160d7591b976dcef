/**
 * The part of smithay's `Space<Window>` that the compositor relies on: the
 * window stack (paint order, last = topmost), the mapped outputs in mapping
 * order, and the few queries and updates the compositor calls. Each stand-in
 * promises only what its call sites use.
 */
module Space {
  import opened Options
  import opened Geometry

  /** Identity of a `wl_surface`. */
  type Surface = nat
  type WindowId = nat
  type OutputId = nat

  /** One surface of a window's surface tree, placed at `offset` in window-local coordinates. */
  datatype SubSurface = SubSurface(surface: Surface, offset: Point, size: Size)
  {
    function Area(): Rect { Rect(offset, size) }
  }

  /**
   * A mapped window: its identity, its location and size in the space, the
   * `wl_surface` of its xdg toplevel role if it has one, and its surface tree
   * (last = topmost).
   */
  datatype Window = Window(id: WindowId, loc: Point, size: Size, toplevel: Option<Surface>, tree: seq<SubSurface>)
  {
    function Bbox(): Rect { Rect(loc, size) }
  }

  /** An output with the logical size of its current mode. */
  datatype Output = Output(id: OutputId, name: string, size: Size)

  /** An output together with its location in the space. */
  datatype MappedOutput = MappedOutput(output: Output, loc: Point)
  {
    /** `Space::output_geometry`. */
    function Geometry(): Rect { Rect(loc, output.size) }
  }

  predicate UniqueIds(stack: seq<Window>)
  {
    forall i, j :: 0 <= i < j < |stack| ==> stack[i].id != stack[j].id
  }

  predicate UniqueOutputIds(outputs: seq<MappedOutput>)
  {
    forall i, j :: 0 <= i < j < |outputs| ==> outputs[i].output.id != outputs[j].output.id
  }

  /** Window `i` is the topmost window whose rectangle contains `p`. */
  predicate TopmostAt(stack: seq<Window>, i: int, p: PointF)
  {
    && 0 <= i < |stack|
    && stack[i].Bbox().Contains(p)
    && forall j :: i < j < |stack| ==> !stack[j].Bbox().Contains(p)
  }

  function Bboxes(stack: seq<Window>): (rs: seq<Rect>)
    ensures |rs| == |stack| && forall i :: 0 <= i < |stack| ==> rs[i] == stack[i].Bbox()
  {
    seq(|stack|, i requires 0 <= i < |stack| => stack[i].Bbox())
  }

  function Areas(tree: seq<SubSurface>): (rs: seq<Rect>)
    ensures |rs| == |tree| && forall k :: 0 <= k < |tree| ==> rs[k] == tree[k].Area()
  {
    seq(|tree|, k requires 0 <= k < |tree| => tree[k].Area())
  }

  /**
   * `Space::element_under`, by box only: the topmost window whose rectangle
   * contains `p`, with its location; `None` when no window covers `p`.
   * smithay also skips windows with no surface under `p`; that input-region
   * test is not part of this stand-in.
   */
  function ElementUnder(stack: seq<Window>, p: PointF): (r: Option<(Window, Point)>)
    ensures r.None? <==> forall i :: 0 <= i < |stack| ==> !stack[i].Bbox().Contains(p)
    ensures r.Some? ==> exists i :: TopmostAt(stack, i, p) && r.value == (stack[i], stack[i].loc)
    ensures forall i :: TopmostAt(stack, i, p) ==> r == Some((stack[i], stack[i].loc))
  {
    match LastContaining(Bboxes(stack), p)
    case None => None
    case Some(i) =>
      assert TopmostAt(stack, i, p);
      TopmostIsUnique(stack, i, p);
      Some((stack[i], stack[i].loc))
  }

  /** Surface `k` is the topmost surface of `tree` containing the window-local point. */
  predicate TopmostSurfaceAt(tree: seq<SubSurface>, k: int, local: PointF)
  {
    && 0 <= k < |tree|
    && tree[k].Area().Contains(local)
    && forall j :: k < j < |tree| ==> !tree[j].Area().Contains(local)
  }

  /**
   * `Window::surface_under(local, WindowSurfaceType::ALL)`: the topmost surface
   * of the window's tree containing the window-local point, with that surface's
   * offset inside the window.
   */
  function WindowSurfaceUnder(w: Window, local: PointF): (r: Option<(Surface, Point)>)
    ensures r.None? <==> forall k :: 0 <= k < |w.tree| ==> !w.tree[k].Area().Contains(local)
    ensures r.Some? ==> exists k :: TopmostSurfaceAt(w.tree, k, local) && r.value == (w.tree[k].surface, w.tree[k].offset)
  {
    match LastContaining(Areas(w.tree), local)
    case None => None
    case Some(k) =>
      assert TopmostSurfaceAt(w.tree, k, local);
      Some((w.tree[k].surface, w.tree[k].offset))
  }

  /** The stack with every window of identity `id` taken out, others in their order. */
  function Without(stack: seq<Window>, id: WindowId): (r: seq<Window>)
  {
    if stack == [] then []
    else (if stack[0].id == id then [] else [stack[0]]) + Without(stack[1..], id)
  }

  /** First position of window `id` in the stack. */
  function IndexOfWindow(stack: seq<Window>, id: WindowId): (r: Option<nat>)
    ensures r.Some? ==> r.value < |stack| && stack[r.value].id == id
    ensures r.None? <==> forall i :: 0 <= i < |stack| ==> stack[i].id != id
  {
    if stack == [] then None
    else if stack[0].id == id then Some(0)
    else match IndexOfWindow(stack[1..], id)
      case None => None
      case Some(i) => Some(i + 1)
  }

  lemma {:induction false} WithoutRemovesOne(stack: seq<Window>, i: nat)
    requires UniqueIds(stack) && i < |stack|
    ensures Without(stack, stack[i].id) == stack[..i] + stack[i + 1..]
    decreases |stack|
  {
    if i == 0 {
      WithoutAbsent(stack[1..], stack[0].id);
      assert stack[1..] == stack[..0] + stack[1..];
    } else {
      WithoutRemovesOne(stack[1..], i - 1);
      assert stack[1..][..i - 1] == stack[1..i];
      assert stack[1..][i - 1 + 1..] == stack[i + 1..];
      assert stack[..i] == [stack[0]] + stack[1..i];
    }
  }

  lemma {:induction false} WithoutAbsent(stack: seq<Window>, id: WindowId)
    requires forall i :: 0 <= i < |stack| ==> stack[i].id != id
    ensures Without(stack, id) == stack
    decreases |stack|
  {
    if stack != [] {
      WithoutAbsent(stack[1..], id);
    }
  }

  /**
   * `Space::raise_element`: moves the window with `w`'s identity to the top of
   * the stack; a window that is not mapped leaves the stack as it is.
   */
  function RaiseElement(stack: seq<Window>, w: Window): (r: seq<Window>)
    ensures |r| == |stack| && multiset(r) == multiset(stack)
    ensures (forall i :: 0 <= i < |stack| ==> stack[i].id != w.id) ==> r == stack
    ensures (exists i :: 0 <= i < |stack| && stack[i].id == w.id) ==> r[|r| - 1].id == w.id
    ensures UniqueIds(stack) && (exists i :: 0 <= i < |stack| && stack[i] == w) ==>
      r == Without(stack, w.id) + [w]
    ensures UniqueIds(stack) ==> UniqueIds(r)
  {
    match IndexOfWindow(stack, w.id)
    case None => stack
    case Some(i) =>
      RaiseAt(stack, i);
      stack[..i] + stack[i + 1..] + [stack[i]]
  }

  /** What taking window `i` out and pushing it on top does to the stack. */
  lemma RaiseAt(stack: seq<Window>, i: nat)
    requires i < |stack|
    ensures var r := stack[..i] + stack[i + 1..] + [stack[i]];
      && |r| == |stack| && multiset(r) == multiset(stack)
      && (UniqueIds(stack) ==> UniqueIds(r) && r == Without(stack, stack[i].id) + [stack[i]])
  {
    var r := stack[..i] + stack[i + 1..] + [stack[i]];
    assert stack == stack[..i] + [stack[i]] + stack[i + 1..];
    assert multiset(r) == multiset(stack);
    if UniqueIds(stack) {
      WithoutRemovesOne(stack, i);
      RaisedStaysUnique(stack, i);
    }
  }

  lemma RaisedStaysUnique(stack: seq<Window>, i: nat)
    requires UniqueIds(stack) && i < |stack|
    ensures UniqueIds(stack[..i] + stack[i + 1..] + [stack[i]])
  {
    var r := stack[..i] + stack[i + 1..] + [stack[i]];
    forall a, b | 0 <= a < b < |r|
      ensures r[a].id != r[b].id
    {
      var a' := if a < i then a else a + 1;
      var b' := if b == |r| - 1 then i else if b < i then b else b + 1;
      assert r[a] == stack[a'] && r[b] == stack[b'] && a' != b';
    }
  }

  /** At most one window is the topmost one under a point. */
  lemma TopmostIsUnique(stack: seq<Window>, i: int, p: PointF)
    requires TopmostAt(stack, i, p)
    ensures forall j :: TopmostAt(stack, j, p) ==> j == i
  {
  }

  /** First position of output `id` among the mapped outputs. */
  function IndexOfOutput(outputs: seq<MappedOutput>, id: OutputId): (r: Option<nat>)
    ensures r.Some? ==> r.value < |outputs| && outputs[r.value].output.id == id
    ensures r.Some? ==> forall k :: 0 <= k < r.value ==> outputs[k].output.id != id
    ensures r.None? <==> forall k :: 0 <= k < |outputs| ==> outputs[k].output.id != id
  {
    if outputs == [] then None
    else if outputs[0].output.id == id then Some(0)
    else match IndexOfOutput(outputs[1..], id)
      case None => None
      case Some(k) => Some(k + 1)
  }

  /**
   * `Space::map_output`: places output `o` at `loc`. An output that is already
   * mapped is relocated where it stands; a new one is appended after the
   * others. No other output moves.
   */
  function PlaceOutput(outputs: seq<MappedOutput>, o: Output, loc: Point): (r: seq<MappedOutput>)
    ensures IndexOfOutput(r, o.id).Some? && r[IndexOfOutput(r, o.id).value] == MappedOutput(o, loc)
    ensures |r| == |outputs| + (if IndexOfOutput(outputs, o.id).Some? then 0 else 1)
    ensures forall k :: 0 <= k < |outputs| && outputs[k].output.id != o.id ==> r[k] == outputs[k]
    ensures UniqueOutputIds(outputs) ==> UniqueOutputIds(r)
  {
    match IndexOfOutput(outputs, o.id)
    case Some(k) =>
      var r := outputs[k := MappedOutput(o, loc)];
      FirstOutputAt(r, o.id, k);
      r
    case None =>
      var r := outputs + [MappedOutput(o, loc)];
      FirstOutputAt(r, o.id, |outputs|);
      r
  }

  lemma FirstOutputAt(outputs: seq<MappedOutput>, id: OutputId, k: nat)
    requires k < |outputs| && outputs[k].output.id == id
    requires forall j :: 0 <= j < k ==> outputs[j].output.id != id
    ensures IndexOfOutput(outputs, id) == Some(k)
  {
  }

  /** Mapping an output twice at the same place is the same as mapping it once. */
  lemma PlaceOutputIdempotent(outputs: seq<MappedOutput>, o: Output, loc: Point)
    requires UniqueOutputIds(outputs)
    ensures PlaceOutput(PlaceOutput(outputs, o, loc), o, loc) == PlaceOutput(outputs, o, loc)
  {
  }
}
