/**
 * The sketch's state and its event handlers: `setup`, the per-frame `draw`
 * with its section-processing loop, `keyPressed`, and the effect of the
 * "Load New Source" button together with its load callback.
 *
 * Rendering is not modelled. The blended target image a frame samples from
 * is an input to `Draw`, and the processed layer is the list of tiles
 * pasted onto it since it was last cleared.
 */
module Engine {
  import opened Pixels
  import opened Randomness
  import opened ColorSampler
  import opened MatchSearch
  import opened TransitionBlender
  import opened RegionGrid

  /** `sectionsPerFrame` starts at, and never rises above, 50; it never drops below 1. */
  const MAX_SECTIONS_PER_FRAME: int := 50
  const MIN_SECTIONS_PER_FRAME: int := 1
  /** The arrow keys change `sectionsPerFrame` by 5. */
  const SPEED_STEP: int := 5

  /**
   * One tile pasted onto the processed layer: `at` is the point the layer is
   * translated to, the section's corner in layer coordinates `(x, y - 300)`;
   * the tile is drawn from half a section up and to the left of it, so it is
   * centred on that corner. `tile` is the source corner it was copied from.
   */
  datatype Placement = Placement(at: Pos, tile: Pos)

  /**
   * The sketch's globals: `processedPixels`, `isProcessing`,
   * `sectionsPerFrame`, the target cycle, `processedLayer` and `sourceImage`.
   */
  datatype State = State(
    sections: seq<Section>,
    processing: bool,
    sectionsPerFrame: int,
    blend: Blend,
    layer: seq<Placement>,
    source: Image)

  /** What holds between events of a running sketch. */
  predicate Valid(st: State) {
    && SamePositions(st.sections, Grid())
    && MIN_SECTIONS_PER_FRAME <= st.sectionsPerFrame <= MAX_SECTIONS_PER_FRAME
    && CycleInvariant(st.blend, NUM_TARGET_IMAGES)
    && Searchable(st.source)
  }

  /**
   * `setup`: the grid built by the nested loop, all unprocessed; idle; 50
   * sections per frame; the first target image fading into the second; an
   * empty layer.
   */
  method Setup(source: Image) returns (st: State)
    ensures Searchable(source) ==> Valid(st)
    ensures st.sections == Grid()
    ensures ProcessedCount(st.sections) == 0 && |Unprocessed(st.sections)| == GRID_SIZE
    ensures !st.processing && st.sectionsPerFrame == MAX_SECTIONS_PER_FRAME && st.layer == []
    ensures st.blend == Blend(0.0, 0, 1) && st.source == source
  {
    var sections := BuildGrid();
    GridUnprocessed();
    st := State(sections, false, MAX_SECTIONS_PER_FRAME, INITIAL_BLEND, [], source);
  }

  /** No record of the initial grid is processed. */
  lemma GridUnprocessed()
    ensures ProcessedCount(Grid()) == 0
    ensures |Unprocessed(Grid())| == GRID_SIZE
  {
    assert ClearFlags(Grid()) == Grid();
    ClearFlagsCount(Grid());
    UnprocessedSpec(Grid());
  }

  /**
   * Every section sits on a corner of the processing area's lattice, so its
   * sampled square, shifted up by `AREA_TOP`, starts inside the blended
   * target image.
   */
  predicate InArea(sections: seq<Section>) {
    forall k :: 0 <= k < |sections| ==> GridCorner(sections[k].x, sections[k].y)
  }

  lemma ValidInArea(st: State)
    requires Valid(st)
    ensures InArea(st.sections)
  {
    forall k | 0 <= k < |st.sections|
      ensures GridCorner(st.sections[k].x, st.sections[k].y)
    {
      GridShape();
      assert st.sections[k].x == Grid()[k].x && st.sections[k].y == Grid()[k].y;
    }
  }

  /**
   * The random numbers one processing iteration consumes: the pick among the
   * unprocessed sections, then the 50 candidates of `findBestMatch`.
   */
  datatype IterationDraws = IterationDraws(pick: real, probes: seq<Probe>)

  predicate ValidIterationDraws(d: IterationDraws) {
    Unit(d.pick) && |d.probes| == MATCH_ATTEMPTS && ValidProbes(d.probes)
  }

  /** At least `n` well-formed iterations' worth of random numbers. */
  predicate EnoughDraws(draws: seq<IterationDraws>, n: nat) {
    |draws| >= n && forall i :: 0 <= i < |draws| ==> ValidIterationDraws(draws[i])
  }

  /**
   * What one pass of the loop did besides flipping flags: it found nothing
   * left and started over (`Cleared`), or it pasted a tile for section `k`
   * using the candidates `probes` (`Visited`).
   */
  datatype Event = Cleared | Visited(k: nat, probes: seq<Probe>)

  /** The flags after one pass, with what the pass did. */
  datatype Pass = Pass(sections: seq<Section>, event: Event)

  /**
   * `unprocessed[floor(random(unprocessed.length))]` when `Math.random()`
   * returned `u`: the index of some section still waiting.
   */
  function Pick(sections: seq<Section>, u: real): (k: nat)
    requires Unit(u) && |Unprocessed(sections)| > 0
    ensures k < |sections| && !sections[k].processed
  {
    UnprocessedSpec(sections);
    Unprocessed(sections)[RandomFloor(u, |Unprocessed(sections)|)]
  }

  /**
   * One pass of the `for` loop in `draw`, with `d` the random numbers it
   * would consume. With nothing left to process it clears every flag (and
   * the caller clears the layer) and goes on to the next pass (`continue`);
   * otherwise it picks a waiting section and marks it processed.
   */
  function Iterate(sections: seq<Section>, d: IterationDraws): (r: Pass)
    requires ValidIterationDraws(d)
    ensures SamePositions(r.sections, sections)
    ensures r.event.Visited? ==> r.event.k < |sections| && r.event.probes == d.probes
  {
    if |Unprocessed(sections)| == 0 then Pass(ClearFlags(sections), Cleared)
    else
      var k := Pick(sections, d.pick);
      Pass(Mark(sections, k), Visited(k, d.probes))
  }

  /** Random numbers a pass consumed: none for the reset, one iteration's worth otherwise. */
  function Consumed(e: Event): nat {
    if e.Visited? then 1 else 0
  }

  /** How many of the passes `events` visited a section. */
  function VisitCount(events: seq<Event>): (c: nat)
    ensures c <= |events|
    decreases |events|
  {
    if |events| == 0 then 0
    else VisitCount(events[..|events| - 1]) + Consumed(events[|events| - 1])
  }

  /** The flags after some passes, the draws used so far, and what each pass did. */
  datatype Run = Run(sections: seq<Section>, used: nat, events: seq<Event>)

  /** Every `Visited` event names a section of `sections` and carries usable candidates. */
  predicate ValidEvents(events: seq<Event>, sections: seq<Section>) {
    forall i :: 0 <= i < |events| && events[i].Visited? ==>
      events[i].k < |sections| && |events[i].probes| == MATCH_ATTEMPTS && ValidProbes(events[i].probes)
  }

  /**
   * `n` passes of the loop, each starting where the previous one left off,
   * reading the random numbers in `draws` from position `used` onwards; the
   * result's `used` is the position reached.
   */
  function RunSections(sections: seq<Section>, draws: seq<IterationDraws>, used: nat, n: nat): (r: Run)
    requires EnoughDraws(draws, used + n)
    ensures SamePositions(r.sections, sections)
    ensures used <= r.used <= used + n && |r.events| == n
    ensures ValidEvents(r.events, sections)
    decreases n
  {
    if n == 0 then Run(sections, used, [])
    else
      var p := RunSections(sections, draws, used, n - 1);
      var q := Iterate(p.sections, draws[p.used]);
      Run(q.sections, p.used + Consumed(q.event), p.events + [q.event])
  }

  /** What pasting needs: a searchable source, a target buffer, sections inside it. */
  predicate Ready(st: State, target: Image) {
    Searchable(st.source) && ValidImage(target) && InArea(st.sections)
  }

  /**
   * The tile pasted for section `s`: the best match in `source` for the mean
   * colour of the section's square in the blended target.
   */
  function TileFor(source: Image, target: Image, s: Section, probes: seq<Probe>): (tile: Pos)
    requires Searchable(source) && ValidImage(target) && ValidProbes(probes)
    requires 0 <= s.x && AREA_TOP <= s.y
    ensures 0 <= tile.x <= source.width - SECTION_SIZE && 0 <= tile.y <= source.height - SECTION_SIZE
  {
    var targetColor := AverageColor(target, s.x, s.y - AREA_TOP, SECTION_SIZE);
    FindBestMatch(source, targetColor, probes)
  }

  /**
   * How many of the passes `events` the layer has forgotten: all of them up
   * to and including the last reset, or none when no pass reset. Every pass
   * after that point was a visit.
   */
  function LastReset(events: seq<Event>): (start: nat)
    ensures start <= |events|
    ensures start > 0 ==> events[start - 1] == Cleared
    ensures forall i :: start <= i < |events| ==> events[i].Visited?
    decreases |events|
  {
    if |events| == 0 then 0
    else if events[|events| - 1] == Cleared then |events|
    else LastReset(events[..|events| - 1])
  }

  /**
   * The placements the visits `visits` paint, in order: each section's
   * best-matching tile centred on `(x, y - 300)`, the section's corner in
   * layer coordinates.
   */
  function Tiles(sections: seq<Section>, source: Image, target: Image, visits: seq<Event>): (r: seq<Placement>)
    requires Searchable(source) && ValidImage(target) && InArea(sections)
    requires ValidEvents(visits, sections)
    requires forall i :: 0 <= i < |visits| ==> visits[i].Visited?
    ensures |r| == |visits|
  {
    seq(|visits|, i requires 0 <= i < |visits| =>
      var s := sections[visits[i].k];
      Placement(Pos(s.x, s.y - AREA_TOP), TileFor(source, target, s, visits[i].probes)))
  }

  /**
   * The processed layer after the passes `events`, starting from `layer`:
   * a reset clears it (`processedLayer.clear()`), a visit pastes the
   * section's tile. Positions never change, so `sections` may be the flags
   * before or after the passes.
   */
  function Paste(layer: seq<Placement>, sections: seq<Section>, source: Image, target: Image,
                 events: seq<Event>): (r: seq<Placement>)
    requires Searchable(source) && ValidImage(target) && InArea(sections)
    requires ValidEvents(events, sections)
    ensures |r| <= |layer| + |events|
  {
    var start := LastReset(events);
    assert ValidEvents(events[start..], sections) by {
      forall i | 0 <= i < |events[start..]| ensures events[start..][i] == events[start + i] { }
    }
    (if start == 0 then layer else []) + Tiles(sections, source, target, events[start..])
  }

  /** A frame's result: the new state and the iterations' worth of draws consumed. */
  datatype Progress = Progress(state: State, used: nat)

  /**
   * `draw`: advance the target blend; when idle stop there (`return`);
   * otherwise run the loop `sectionsPerFrame` times, reading the frame's
   * random numbers from `draws`. `target` is the blended target after this
   * frame's `updateTargetBlend`.
   */
  function Draw(st: State, target: Image, draws: seq<IterationDraws>): (r: Progress)
    requires Ready(st, target) && (st.processing ==> EnoughDraws(draws, FrameIterations(st)))
    ensures r.state.blend == UpdateTargetBlend(st.blend, TRANSITION_SPEED, NUM_TARGET_IMAGES)
    ensures r.state.processing == st.processing && r.state.sectionsPerFrame == st.sectionsPerFrame
    ensures r.state.source == st.source && SamePositions(r.state.sections, st.sections)
    ensures !st.processing ==> r.state.sections == st.sections && r.state.layer == st.layer && r.used == 0
    ensures st.processing ==> r.used <= FrameIterations(st)
  {
    var st1 := st.(blend := UpdateTargetBlend(st.blend, TRANSITION_SPEED, NUM_TARGET_IMAGES));
    if !st.processing then Progress(st1, 0)
    else
      var run := RunSections(st.sections, draws, 0, FrameIterations(st));
      var layer := Paste(st.layer, st.sections, st.source, target, run.events);
      Progress(st1.(sections := run.sections, layer := layer), run.used)
  }

  /** `for (let i = 0; i < sectionsPerFrame; i++)` runs this many times. */
  function FrameIterations(st: State): nat {
    if st.sectionsPerFrame > 0 then st.sectionsPerFrame else 0
  }

  /**
   * `keyPressed` for the key name `key`: `r`/`R` clears the flags and the
   * layer and stops processing; space toggles processing; the arrow keys
   * raise `sectionsPerFrame` by 5 up to 50 or lower it by 5 down to 1. Any
   * other key changes nothing.
   */
  function KeyPressed(st: State, key: string): (r: State)
    ensures r.source == st.source && r.blend == st.blend && SamePositions(r.sections, st.sections)
    ensures key == "r" || key == "R" ==>
      && !r.processing && r.layer == [] && r.sectionsPerFrame == st.sectionsPerFrame
      && forall k :: 0 <= k < |r.sections| ==> !r.sections[k].processed
    ensures key == " " ==> r == st.(processing := !st.processing)
    ensures key == "ArrowUp" ==>
      r == st.(sectionsPerFrame := if st.sectionsPerFrame + SPEED_STEP < MAX_SECTIONS_PER_FRAME
                                   then st.sectionsPerFrame + SPEED_STEP else MAX_SECTIONS_PER_FRAME)
    ensures key == "ArrowDown" ==>
      r == st.(sectionsPerFrame := if st.sectionsPerFrame - SPEED_STEP > MIN_SECTIONS_PER_FRAME
                                   then st.sectionsPerFrame - SPEED_STEP else MIN_SECTIONS_PER_FRAME)
    ensures key !in {"r", "R", " ", "ArrowUp", "ArrowDown"} ==> r == st
  {
    var st1 := if key == "r" || key == "R" then Reset(st) else st;
    var st2 := if key == " " then st1.(processing := !st1.processing) else st1;
    var st3 := if key == "ArrowUp"
      then st2.(sectionsPerFrame := Min(st2.sectionsPerFrame + SPEED_STEP, MAX_SECTIONS_PER_FRAME))
      else st2;
    if key == "ArrowDown"
      then st3.(sectionsPerFrame := Max(st3.sectionsPerFrame - SPEED_STEP, MIN_SECTIONS_PER_FRAME))
      else st3
  }

  /** Clear every flag and the layer, and stop processing. */
  function Reset(st: State): (r: State)
    ensures ProcessedCount(r.sections) == 0 && SamePositions(r.sections, st.sections)
    ensures r.layer == [] && !r.processing
  {
    ClearFlagsCount(st.sections);
    st.(sections := ClearFlags(st.sections), layer := [], processing := false)
  }

  /**
   * Pressing the load button and the load finishing, taken together: the
   * press makes `img` the source, and the load callback then clears the
   * flags and the layer and stops processing. Frames drawn while the image
   * is still loading are not part of this step.
   */
  function InstallSource(st: State, img: Image): (r: State)
    ensures r.source == img && r.blend == st.blend && r.sectionsPerFrame == st.sectionsPerFrame
    ensures ProcessedCount(r.sections) == 0 && SamePositions(r.sections, st.sections)
    ensures r.layer == [] && !r.processing
  {
    Reset(st).(source := img)
  }
}
