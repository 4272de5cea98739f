/**
 * What the frame loop and the key handler guarantee over several steps: each
 * processing pass fills exactly one waiting section, a full grid is cleared
 * at the cost of one pass, enough passes from a fresh grid cover every
 * section, the layer holds one best-match tile per section visited since the
 * last reset, an idle frame touches nothing, and the handlers keep the
 * sketch's state well formed.
 */
module EngineProperties {
  import opened Pixels
  import opened Randomness
  import opened MatchSearch
  import opened TransitionBlender
  import opened RegionGrid
  import opened Engine

  /**
   * With some section still waiting, one pass visits exactly the picked
   * section, which was waiting: the processed count rises by one, the number
   * waiting falls by one, every other record is kept, and the pass consumes
   * its draws.
   */
  lemma IterateMarksOne(sections: seq<Section>, d: IterationDraws)
    requires ValidIterationDraws(d) && |Unprocessed(sections)| > 0
    ensures var r := Iterate(sections, d);
            var k := Pick(sections, d.pick);
            && r.event == Visited(k, d.probes) && Consumed(r.event) == 1
            && !sections[k].processed && r.sections[k].processed
            && (forall i :: 0 <= i < |sections| && i != k ==> r.sections[i] == sections[i])
            && ProcessedCount(r.sections) == ProcessedCount(sections) + 1
            && |Unprocessed(r.sections)| == |Unprocessed(sections)| - 1
  {
    var k := Pick(sections, d.pick);
    MarkCount(sections, k);
    UnprocessedLength(sections);
    UnprocessedLength(Mark(sections, k));
  }

  /** The counts of `IterateMarksOne` alone: a visit, one more processed, one fewer waiting. */
  lemma IterateCount(sections: seq<Section>, d: IterationDraws)
    requires ValidIterationDraws(d) && |Unprocessed(sections)| > 0
    ensures var r := Iterate(sections, d);
            && r.event.Visited? && Consumed(r.event) == 1
            && ProcessedCount(r.sections) == ProcessedCount(sections) + 1
            && |Unprocessed(r.sections)| == |Unprocessed(sections)| - 1
  {
    var k := Pick(sections, d.pick);
    MarkCount(sections, k);
    UnprocessedLength(sections);
    UnprocessedLength(Mark(sections, k));
  }

  /**
   * With every section processed, the pass only starts over: all flags are
   * cleared, the whole grid is waiting again, and no draw is consumed.
   */
  lemma IterateRollover(sections: seq<Section>, d: IterationDraws)
    requires ValidIterationDraws(d)
    requires forall k :: 0 <= k < |sections| ==> sections[k].processed
    ensures var r := Iterate(sections, d);
            && r.event == Cleared && Consumed(r.event) == 0
            && (forall k :: 0 <= k < |r.sections| ==> !r.sections[k].processed)
            && ProcessedCount(r.sections) == 0
            && |Unprocessed(r.sections)| == |sections|
  {
    UnprocessedEmpty(sections);
    ClearFlagsCount(sections);
    UnprocessedLength(ClearFlags(sections));
  }

  /**
   * While at least `n` sections are waiting, `n` passes visit `n` of them:
   * the processed count rises by `n`, no pass is a reset, and exactly `n`
   * iterations' worth of draws are consumed.
   */
  lemma RunSectionsProgress(sections: seq<Section>, draws: seq<IterationDraws>, used: nat, n: nat)
    requires EnoughDraws(draws, used + n) && n <= |Unprocessed(sections)|
    ensures var r := RunSections(sections, draws, used, n);
            && ProcessedCount(r.sections) == ProcessedCount(sections) + n
            && |Unprocessed(r.sections)| == |Unprocessed(sections)| - n
            && r.used == used + n
            && (forall i :: 0 <= i < n ==> r.events[i].Visited?)
  {
    UnprocessedLength(sections);
    RunSectionsCounts(sections, draws, used, n);
    RunSectionsVisits(sections, draws, used, n);
    UnprocessedLength(RunSections(sections, draws, used, n).sections);
  }

  /** One more pass with a section waiting fills one section with one iteration's draws. */
  lemma RunSectionsStep(sections: seq<Section>, draws: seq<IterationDraws>, used: nat, n: nat)
    requires n > 0 && EnoughDraws(draws, used + n)
    requires ProcessedCount(RunSections(sections, draws, used, n - 1).sections) < |sections|
    ensures var p := RunSections(sections, draws, used, n - 1);
            var r := RunSections(sections, draws, used, n);
            && ProcessedCount(r.sections) == ProcessedCount(p.sections) + 1
            && r.used == p.used + 1
  {
    var p := RunSections(sections, draws, used, n - 1);
    UnprocessedLength(p.sections);
    var q := Iterate(p.sections, draws[p.used]);
    IterateCount(p.sections, draws[p.used]);
    assert RunSections(sections, draws, used, n) == Run(q.sections, p.used + 1, p.events + [q.event]);
  }

  /**
   * The counts of `RunSectionsProgress`, by the processed count: `n` more
   * processed and `n` draws used.
   */
  lemma {:induction false} RunSectionsCounts(sections: seq<Section>, draws: seq<IterationDraws>, used: nat, n: nat)
    requires EnoughDraws(draws, used + n) && ProcessedCount(sections) + n <= |sections|
    ensures var r := RunSections(sections, draws, used, n);
            && ProcessedCount(r.sections) == ProcessedCount(sections) + n
            && r.used == used + n
    decreases n
  {
    if n > 0 {
      RunSectionsCounts(sections, draws, used, n - 1);
      var p := RunSections(sections, draws, used, n - 1);
      assert ProcessedCount(p.sections) < |sections|;
      RunSectionsStep(sections, draws, used, n);
    }
  }

  /** The events of `RunSectionsProgress`: while sections wait, no pass is a reset. */
  lemma RunSectionsVisits(sections: seq<Section>, draws: seq<IterationDraws>, used: nat, n: nat)
    requires EnoughDraws(draws, used + n) && ProcessedCount(sections) + n <= |sections|
    ensures forall i :: 0 <= i < n ==> RunSections(sections, draws, used, n).events[i].Visited?
  {
    RunSectionsCounts(sections, draws, used, n);
    RunSectionsUsed(sections, draws, used, n);
    AllVisited(RunSections(sections, draws, used, n).events);
  }

  /** Events whose visit count is their length are visits, every one. */
  lemma {:induction false} AllVisited(events: seq<Event>)
    requires VisitCount(events) == |events|
    ensures forall i :: 0 <= i < |events| ==> events[i].Visited?
    decreases |events|
  {
    if |events| > 0 {
      var prefix := events[..|events| - 1];
      AllVisited(prefix);
      forall i | 0 <= i < |events| - 1
        ensures events[i].Visited?
      {
        assert events[i] == prefix[i];
      }
    }
  }

  /**
   * Bookkeeping of the random numbers: a run of passes reads one iteration's
   * worth of draws per visit and none per reset, whatever the flags.
   */
  lemma {:induction false} RunSectionsUsed(sections: seq<Section>, draws: seq<IterationDraws>, used: nat, n: nat)
    requires EnoughDraws(draws, used + n)
    ensures var r := RunSections(sections, draws, used, n); r.used == used + VisitCount(r.events)
    decreases n
  {
    if n > 0 {
      RunSectionsUsed(sections, draws, used, n - 1);
      var p := RunSections(sections, draws, used, n - 1);
      var events := RunSections(sections, draws, used, n).events;
      assert events[..|events| - 1] == p.events;
    }
  }

  /**
   * From the grid `setup` builds, 4800 passes leave every section processed:
   * no section is picked twice before all have been picked.
   */
  lemma FullCoverage(draws: seq<IterationDraws>)
    requires EnoughDraws(draws, GRID_SIZE)
    ensures var r := RunSections(Grid(), draws, 0, GRID_SIZE);
            forall k :: 0 <= k < |r.sections| ==> r.sections[k].processed
  {
    GridUnprocessed();
    RunSectionsProgress(Grid(), draws, 0, GRID_SIZE);
    UnprocessedEmpty(RunSections(Grid(), draws, 0, GRID_SIZE).sections);
  }

  /**
   * The reset of a finished grid uses up one pass of the frame loop: `n`
   * passes that start on a fully processed grid begin with the reset, end
   * with only `n - 1` sections processed and consume only `n - 1`
   * iterations' draws.
   */
  lemma RolloverUsesIteration(sections: seq<Section>, draws: seq<IterationDraws>, used: nat, n: nat)
    requires EnoughDraws(draws, used + n)
    requires forall k :: 0 <= k < |sections| ==> sections[k].processed
    requires 0 < n <= |sections| + 1
    ensures var r := RunSections(sections, draws, used, n);
            && r.events[0] == Cleared
            && ProcessedCount(r.sections) == n - 1
            && r.used == used + n - 1
  {
    UnprocessedEmpty(sections);
    RolloverCount(sections, draws, used, n);
  }

  /** `RolloverUsesIteration` for a grid on which nothing is waiting, by induction on `n`. */
  lemma {:induction false} RolloverCount(sections: seq<Section>, draws: seq<IterationDraws>, used: nat, n: nat)
    requires EnoughDraws(draws, used + n)
    requires |Unprocessed(sections)| == 0
    requires 0 < n <= |sections| + 1
    ensures var r := RunSections(sections, draws, used, n);
            && r.events[0] == Cleared
            && ProcessedCount(r.sections) == n - 1
            && |Unprocessed(r.sections)| == |sections| - (n - 1)
            && r.used == used + n - 1
    decreases n
  {
    if n == 1 {
      assert Iterate(sections, draws[used]).sections == ClearFlags(sections);
      ClearFlagsCount(sections);
      UnprocessedLength(ClearFlags(sections));
    } else {
      RolloverCount(sections, draws, used, n - 1);
      var p := RunSections(sections, draws, used, n - 1);
      IterateCount(p.sections, draws[p.used]);
      assert RunSections(sections, draws, used, n).events == p.events + [Iterate(p.sections, draws[p.used]).event];
    }
  }

  /**
   * While no pass resets, pasting keeps the old layer as a prefix and adds
   * one placement per visit, in order: at the visited section's corner in
   * layer coordinates, the source tile that best matches the mean colour of
   * that section's square in the target.
   */
  lemma PasteVisits(layer: seq<Placement>, sections: seq<Section>, source: Image,
                    target: Image, events: seq<Event>)
    requires Searchable(source) && ValidImage(target) && InArea(sections)
    requires ValidEvents(events, sections)
    requires forall i :: 0 <= i < |events| ==> events[i].Visited?
    ensures var r := Paste(layer, sections, source, target, events);
            && |r| == |layer| + |events|
            && r[..|layer|] == layer
            && forall i :: 0 <= i < |events| ==>
                 var s := sections[events[i].k];
                 r[|layer| + i] == Placement(Pos(s.x, s.y - AREA_TOP), TileFor(source, target, s, events[i].probes))
  {
    assert LastReset(events) == 0;
    assert events[0..] == events;
    var tiles := Tiles(sections, source, target, events);
    assert Paste(layer, sections, source, target, events) == layer + tiles;
  }

  /**
   * `LastReset` is the only cut with a reset just before it (or none at all)
   * and only visits after it.
   */
  lemma LastResetUnique(events: seq<Event>, start: nat)
    requires start <= |events|
    requires start > 0 ==> events[start - 1] == Cleared
    requires forall i :: start <= i < |events| ==> events[i].Visited?
    ensures LastReset(events) == start
  {
  }

  /**
   * A reset in the middle of the passes moves the cut to just after it:
   * what is left to paint is what `after` alone leaves.
   */
  lemma LastResetAfterClear(before: seq<Event>, after: seq<Event>)
    ensures var all := before + [Cleared] + after;
            && LastReset(all) == |before| + 1 + LastReset(after)
            && all[LastReset(all)..] == after[LastReset(after)..]
  {
    var all := before + [Cleared] + after;
    var offset := |before| + 1;
    var a := LastReset(after);
    if a == 0 {
      assert all[|before|] == Cleared;
    } else {
      assert all[offset + a - 1] == after[a - 1];
    }
    forall i | offset + a <= i < |all|
      ensures all[i].Visited?
    {
      assert all[i] == after[i - offset];
    }
    LastResetUnique(all, offset + a);
    assert all[offset + a..] == after[a..];
  }

  /**
   * A reset forgets everything pasted before it: the layer after
   * `before`, a reset and `after` is what `after` alone paints on an empty
   * layer.
   */
  lemma PasteAfterClear(layer: seq<Placement>, sections: seq<Section>, source: Image,
                        target: Image, before: seq<Event>, after: seq<Event>)
    requires Searchable(source) && ValidImage(target) && InArea(sections)
    requires ValidEvents(before + [Cleared] + after, sections)
    ensures ValidEvents(after, sections)
    ensures Paste(layer, sections, source, target, before + [Cleared] + after)
         == Paste([], sections, source, target, after)
  {
    var all := before + [Cleared] + after;
    forall i | 0 <= i < |after| && after[i].Visited?
      ensures after[i].k < |sections| && |after[i].probes| == MATCH_ATTEMPTS && ValidProbes(after[i].probes)
    {
      assert after[i] == all[|before| + 1 + i];
    }
    LastResetAfterClear(before, after);
  }

  /** The initial grid lies in the processing area. */
  lemma GridInArea()
    ensures InArea(Grid())
  {
    GridShape();
  }

  /**
   * An idle frame changes no record and pastes nothing. A processing frame
   * with at least `sectionsPerFrame` sections waiting processes exactly that
   * many of them, consumes that many iterations' draws, and adds that many
   * tiles after the ones already in the layer.
   */
  lemma DrawProgress(st: State, target: Image, draws: seq<IterationDraws>)
    requires Ready(st, target) && (st.processing ==> EnoughDraws(draws, FrameIterations(st)))
    ensures !st.processing ==>
      Draw(st, target, draws).state.sections == st.sections && Draw(st, target, draws).state.layer == st.layer
    ensures st.processing && 0 <= st.sectionsPerFrame <= |Unprocessed(st.sections)| ==>
      var r := Draw(st, target, draws);
      && ProcessedCount(r.state.sections) == ProcessedCount(st.sections) + st.sectionsPerFrame
      && r.used == st.sectionsPerFrame
      && |r.state.layer| == |st.layer| + st.sectionsPerFrame
      && r.state.layer[..|st.layer|] == st.layer
  {
    if st.processing && 0 <= st.sectionsPerFrame <= |Unprocessed(st.sections)| {
      var run := RunSections(st.sections, draws, 0, FrameIterations(st));
      RunSectionsProgress(st.sections, draws, 0, FrameIterations(st));
      PasteVisits(st.layer, st.sections, st.source, target, run.events);
    }
  }

  /** `k` frames of an idle sketch, each sampling `target`; no random number is drawn. */
  function IdleTicks(st: State, target: Image, k: nat): (r: State)
    requires Ready(st, target) && !st.processing
    ensures r.sections == st.sections && r.layer == st.layer && !r.processing
    ensures r.source == st.source && r.sectionsPerFrame == st.sectionsPerFrame
    decreases k
  {
    if k == 0 then st else Draw(IdleTicks(st, target, k - 1), target, []).state
  }

  /**
   * While idle, frames only move the target cycle on: after `k` of them no
   * section has been processed and nothing pasted, and the blend is where
   * `k` updates take it, so below the switch the amount has grown by exactly
   * `k` times the speed.
   */
  lemma {:induction false} IdleTicksBlend(st: State, target: Image, k: nat)
    requires Ready(st, target) && !st.processing
    ensures IdleTicks(st, target, k).blend == Frames(st.blend, TRANSITION_SPEED, NUM_TARGET_IMAGES, k)
    ensures st.blend.amount + k as real * TRANSITION_SPEED < 1.0 ==>
      IdleTicks(st, target, k).blend == st.blend.(amount := st.blend.amount + k as real * TRANSITION_SPEED)
    decreases k
  {
    if k > 0 {
      IdleTicksBlend(st, target, k - 1);
    }
    if st.blend.amount + k as real * TRANSITION_SPEED < 1.0 {
      FramesWithoutSwitch(st.blend, TRANSITION_SPEED, NUM_TARGET_IMAGES, k);
    }
  }

  /** Sharing positions is transitive. */
  lemma SamePositionsTrans(a: seq<Section>, b: seq<Section>, c: seq<Section>)
    requires SamePositions(a, b) && SamePositions(b, c)
    ensures SamePositions(a, c)
  {
  }

  /** A frame keeps the sketch's state well formed. */
  lemma DrawPreservesValid(st: State, target: Image, draws: seq<IterationDraws>)
    requires Valid(st) && Ready(st, target) && (st.processing ==> EnoughDraws(draws, FrameIterations(st)))
    ensures Valid(Draw(st, target, draws).state)
  {
    var r := Draw(st, target, draws).state;
    UpdatePreservesInvariant(st.blend, TRANSITION_SPEED, NUM_TARGET_IMAGES);
    SamePositionsTrans(r.sections, st.sections, Grid());
  }

  /** `r` twice is `r` once. */
  lemma ResetIdempotent(st: State)
    ensures KeyPressed(KeyPressed(st, "r"), "r") == KeyPressed(st, "r")
  {
    ClearFlagsIdempotent(st.sections);
  }

  /** Space twice gives back the state it started from. */
  lemma ToggleTwice(st: State)
    ensures KeyPressed(KeyPressed(st, " "), " ") == st
  {
  }

  /**
   * Any key keeps the state well formed; in particular the arrow keys keep
   * `sectionsPerFrame` in [1, 50], ArrowUp never lowers it and ArrowDown
   * never raises it.
   */
  lemma KeyPressedPreservesValid(st: State, key: string)
    requires Valid(st)
    ensures Valid(KeyPressed(st, key))
    ensures key == "ArrowUp" ==> KeyPressed(st, key).sectionsPerFrame >= st.sectionsPerFrame
    ensures key == "ArrowDown" ==> KeyPressed(st, key).sectionsPerFrame <= st.sectionsPerFrame
  {
    SamePositionsTrans(KeyPressed(st, key).sections, st.sections, Grid());
  }

  /** `key` pressed `times` times in a row. */
  function Presses(st: State, key: string, times: nat): (r: State)
    decreases times
  {
    if times == 0 then st else KeyPressed(Presses(st, key, times - 1), key)
  }

  /**
   * `t` presses of ArrowUp add `5 * t` to `sectionsPerFrame`, capped at 50;
   * so ten presses from any valid speed reach the cap.
   */
  lemma {:induction false} ArrowUpPresses(st: State, t: nat)
    requires st.sectionsPerFrame <= MAX_SECTIONS_PER_FRAME
    ensures Presses(st, "ArrowUp", t) ==
      st.(sectionsPerFrame := Min(st.sectionsPerFrame + SPEED_STEP * t, MAX_SECTIONS_PER_FRAME))
    ensures t >= 10 && st.sectionsPerFrame >= 0 ==>
      Presses(st, "ArrowUp", t).sectionsPerFrame == MAX_SECTIONS_PER_FRAME
    decreases t
  {
    if t > 0 {
      ArrowUpPresses(st, t - 1);
    }
  }

  /**
   * Loading a new source does what `r` does and also installs the image,
   * and keeps the state well formed when the new image is searchable.
   */
  lemma InstallSourceIsReset(st: State, img: Image)
    ensures InstallSource(st, img) == KeyPressed(st, "r").(source := img)
    ensures Valid(st) && Searchable(img) ==> Valid(InstallSource(st, img))
  {
    if Valid(st) && Searchable(img) {
      SamePositionsTrans(InstallSource(st, img).sections, st.sections, Grid());
    }
  }
}
