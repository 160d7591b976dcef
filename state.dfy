/**
 * The read-only queries of `Clux` in src/state.rs: where an output is placed
 * (configuration overrides first) and which surface lies under a point.
 */
module State {
  import opened Options
  import opened Geometry
  import opened Space

  /**
   * One `[[outputs]]` entry of the configuration file. `scale` (an `f32`) is
   * carried but never read by the placement logic.
   */
  datatype OutputConfig = OutputConfig(name: string, pos: Point, scale: real)

  /** `config.outputs.iter().find(|c| c.name == name)`: the first entry with that name. */
  function FindOutputConfig(configs: seq<OutputConfig>, name: string): (r: Option<nat>)
    ensures r.Some? ==> r.value < |configs| && configs[r.value].name == name
    ensures r.Some? ==> forall j :: 0 <= j < r.value ==> configs[j].name != name
    ensures r.None? <==> forall j :: 0 <= j < |configs| ==> configs[j].name != name
  {
    if configs == [] then None
    else if configs[0].name == name then Some(0)
    else match FindOutputConfig(configs[1..], name)
      case None => None
      case Some(k) => Some(k + 1)
  }

  /**
   * The position `map_output` gives output `name`: the `pos` of the first
   * configuration entry naming it, otherwise the caller's `location`.
   */
  function OutputPosition(configs: seq<OutputConfig>, name: string, location: Point): (pos: Point)
    ensures (forall i :: 0 <= i < |configs| ==> configs[i].name != name) ==> pos == location
    ensures forall i :: (0 <= i < |configs| && configs[i].name == name
                         && forall j :: 0 <= j < i ==> configs[j].name != name) ==> pos == configs[i].pos
  {
    match FindOutputConfig(configs, name)
    case None => location
    case Some(i) => configs[i].pos
  }

  /** Two configurations that agree on names and positions place every output alike: `scale` plays no part. */
  lemma OutputPositionIgnoresScale(configs: seq<OutputConfig>, configs': seq<OutputConfig>, name: string, location: Point)
    requires |configs| == |configs'|
    requires forall i :: 0 <= i < |configs| ==> configs[i].name == configs'[i].name && configs[i].pos == configs'[i].pos
    ensures OutputPosition(configs, name, location) == OutputPosition(configs', name, location)
  {
    var r := FindOutputConfig(configs, name);
    if r.Some? {
      assert configs'[r.value].name == name;
    }
  }

  /**
   * Surface `k` of window `i` is what lies under global point `pos`: window
   * `i` is the topmost one covering `pos`, and `k` is the topmost surface of
   * its tree covering `pos` once translated into window-local coordinates.
   */
  predicate SurfaceHit(stack: seq<Window>, i: int, k: int, pos: PointF)
  {
    TopmostAt(stack, i, pos) && TopmostSurfaceAt(stack[i].tree, k, pos.Sub(stack[i].loc.ToF64()))
  }

  /** Origin of surface `k` of window `w` in global coordinates. */
  function SurfaceOrigin(w: Window, k: nat): Point
    requires k < |w.tree|
  {
    w.loc.Add(w.tree[k].offset)
  }

  /**
   * `Clux::surface_under`: the surface under global point `pos` and that
   * surface's origin in global coordinates; `None` when no window covers `pos`
   * or the covering window has no surface there. The answer's origin really
   * is where that surface lies around `pos`.
   */
  function SurfaceUnder(stack: seq<Window>, pos: PointF): (r: Option<(Surface, PointF)>)
    ensures (forall i :: 0 <= i < |stack| ==> !stack[i].Bbox().Contains(pos)) ==> r.None?
    ensures r.Some? <==> exists i, k :: SurfaceHit(stack, i, k, pos)
    ensures r.Some? ==> exists i, k ::
      (&& SurfaceHit(stack, i, k, pos)
       && r.value == (stack[i].tree[k].surface, SurfaceOrigin(stack[i], k).ToF64())
       && Rect(SurfaceOrigin(stack[i], k), stack[i].tree[k].size).Contains(pos))
  {
    match ElementUnder(stack, pos)
    case None => None
    case Some((window, location)) =>
      var i :| TopmostAt(stack, i, pos) && window == stack[i] && location == stack[i].loc;
      var local := pos.Sub(location.ToF64());
      match WindowSurfaceUnder(window, local)
      case None =>
        None
      case Some((s, p)) =>
        var k :| TopmostSurfaceAt(window.tree, k, local) && (s, p) == (window.tree[k].surface, window.tree[k].offset);
        ContainsTranslated(window.tree[k].Area(), location, pos);
        assert SurfaceHit(stack, i, k, pos);
        Some((s, p.Add(location).ToF64()))
  }
}
