/**
 * `colorDifference` and `findBestMatch`: a bounded random search over the
 * source image for the section whose mean colour is closest, in L1
 * distance, to a target colour.
 *
 * A candidate consumes two `Math.random()` results, one per coordinate;
 * the search keeps a candidate only when its distance is strictly smaller
 * than the best so far, so among equally close candidates the earliest one
 * wins.
 */
module MatchSearch {
  import opened Pixels
  import opened ColorSampler
  import opened Randomness

  /** Number of random candidates `findBestMatch` draws. */
  const MATCH_ATTEMPTS: nat := 50

  function Abs(v: real): real {
    if v < 0.0 then -v else v
  }

  /** `colorDifference`: the sum of the absolute per-channel differences. */
  function ColorDifference(c1: Color, c2: Color): (d: real)
    ensures d >= 0.0
    ensures d == 0.0 <==> c1 == c2
  {
    Abs(c1.r - c2.r) + Abs(c1.g - c2.g) + Abs(c1.b - c2.b)
  }

  lemma ColorDifferenceSymmetric(c1: Color, c2: Color)
    ensures ColorDifference(c1, c2) == ColorDifference(c2, c1)
  {
  }

  lemma ColorDifferenceTriangle(c1: Color, c2: Color, c3: Color)
    ensures ColorDifference(c1, c3) <= ColorDifference(c1, c2) + ColorDifference(c2, c3)
  {
  }

  /** A JavaScript number as far as the search needs one: finite, `Infinity`, or `NaN`. */
  datatype Num = Finite(v: real) | Infinity | NaN

  /** JavaScript `a < b`: false whenever either side is NaN. */
  function Less(a: Num, b: Num): (lt: bool)
    ensures lt ==> !a.NaN? && !b.NaN? && !a.Infinity?
    ensures a.Finite? && b.Infinity? ==> lt
  {
    match (a, b)
    case (Finite(x), Finite(y)) => x < y
    case (Finite(_), Infinity) => true
    case _ => false
  }

  /** `colorDifference` on colours that may be NaN: a NaN channel makes the sum NaN. */
  function Difference(c1: Option<Color>, c2: Option<Color>): (d: Num)
    ensures d.NaN? <==> c1.None? || c2.None?
    ensures !d.Infinity?
  {
    if c1.Some? && c2.Some? then Finite(ColorDifference(c1.value, c2.value)) else NaN
  }

  /**
   * The two `Math.random()` results one candidate consumes, scaled to
   * `random(width - SECTION_SIZE)` and `random(height - SECTION_SIZE)` over
   * the source image.
   */
  datatype Probe = Probe(ux: real, uy: real)

  predicate ValidProbe(p: Probe) {
    Unit(p.ux) && Unit(p.uy)
  }

  predicate ValidProbes(probes: seq<Probe>) {
    forall k :: 0 <= k < |probes| ==> ValidProbe(probes[k])
  }

  /** The source image holds at least one whole section in each direction. */
  predicate Searchable(img: Image) {
    ValidImage(img) && img.width >= SECTION_SIZE && img.height >= SECTION_SIZE
  }

  /**
   * The candidate's top-left corner: `floor(random(width - SECTION_SIZE))`,
   * `floor(random(height - SECTION_SIZE))`.
   */
  function Candidate(img: Image, p: Probe): (c: Pos)
    requires Searchable(img) && ValidProbe(p)
    ensures 0 <= c.x <= img.width - SECTION_SIZE && 0 <= c.y <= img.height - SECTION_SIZE
    ensures img.width > SECTION_SIZE ==> c.x < img.width - SECTION_SIZE
    ensures img.height > SECTION_SIZE ==> c.y < img.height - SECTION_SIZE
  {
    Pos(RandomFloor(p.ux, img.width - SECTION_SIZE), RandomFloor(p.uy, img.height - SECTION_SIZE))
  }

  /** A candidate's mean colour; its section lies inside the image, so it is never NaN. */
  function CandidateColor(img: Image, p: Probe): Color
    requires Searchable(img) && ValidProbe(p)
  {
    var c := Candidate(img, p);
    AverageColor(img, c.x, c.y, SECTION_SIZE).value
  }

  /** How far a candidate's mean colour is from the target. */
  function ProbeDifference(img: Image, target: Color, p: Probe): real
    requires Searchable(img) && ValidProbe(p)
  {
    ColorDifference(CandidateColor(img, p), target)
  }

  /** Every candidate's distance from the target, in drawing order. */
  function Distances(img: Image, target: Color, probes: seq<Probe>): (ds: seq<real>)
    requires Searchable(img) && ValidProbes(probes)
    ensures |ds| == |probes|
    decreases |probes|
  {
    if |probes| == 0 then []
    else
      var last := |probes| - 1;
      Distances(img, target, probes[..last]) + [ProbeDifference(img, target, probes[last])]
  }

  /** Entry `j` of `Distances` is candidate `j`'s distance. */
  lemma {:induction false} DistancesAt(img: Image, target: Color, probes: seq<Probe>, j: nat)
    requires Searchable(img) && ValidProbes(probes) && j < |probes|
    ensures Distances(img, target, probes)[j] == ProbeDifference(img, target, probes[j])
    decreases |probes|
  {
    var last := |probes| - 1;
    if j < last {
      assert ValidProbes(probes[..last]);
      DistancesAt(img, target, probes[..last], j);
      assert probes[..last][j] == probes[j];
    }
  }

  /** Every entry of `Distances` is the matching candidate's distance. */
  lemma DistancesAll(img: Image, target: Color, probes: seq<Probe>)
    requires Searchable(img) && ValidProbes(probes)
    ensures forall j :: 0 <= j < |probes| ==>
      Distances(img, target, probes)[j] == ProbeDifference(img, target, probes[j])
  {
    forall j | 0 <= j < |probes|
      ensures Distances(img, target, probes)[j] == ProbeDifference(img, target, probes[j])
    {
      DistancesAt(img, target, probes, j);
    }
  }

  /**
   * Which entry a strict-improvement scan keeps: one of minimal value, and
   * the earliest such, since a later entry replaces it only when strictly
   * smaller.
   */
  function FirstMinimum(ds: seq<real>): (k: nat)
    requires |ds| > 0
    ensures k < |ds|
    ensures forall j :: 0 <= j < |ds| ==> ds[k] <= ds[j]
    ensures forall j :: 0 <= j < k ==> ds[k] < ds[j]
    decreases |ds|
  {
    if |ds| == 1 then 0
    else
      var last := |ds| - 1;
      var k := FirstMinimum(ds[..last]);
      assert forall j :: 0 <= j < last ==> ds[..last][j] == ds[j];
      if ds[last] < ds[k] then last else k
  }

  /** The earliest minimum is determined: no other index is both minimal and strictly below all before it. */
  lemma FirstMinimumUnique(ds: seq<real>, k: nat)
    requires k < |ds|
    requires forall j :: 0 <= j < |ds| ==> ds[k] <= ds[j]
    requires forall j :: 0 <= j < k ==> ds[k] < ds[j]
    ensures FirstMinimum(ds) == k
  {
  }

  /** The loop's variables: `bestDiff` and (`bestX`, `bestY`). */
  datatype Search = Search(bestDiff: Num, best: Pos)

  /** Before the first candidate: `bestDiff = Infinity`, best at (0, 0). */
  const INITIAL_SEARCH: Search := Search(Infinity, Pos(0, 0))

  /**
   * One pass of `findBestMatch`'s loop: measure the candidate, and keep it
   * only when its distance is strictly below `bestDiff`.
   */
  function SearchStep(img: Image, target: Option<Color>, acc: Search, p: Probe): (r: Search)
    requires Searchable(img) && ValidProbe(p)
    ensures r == acc || (r.best == Candidate(img, p) && Less(r.bestDiff, acc.bestDiff))
    ensures !Less(acc.bestDiff, r.bestDiff)
    ensures r == acc || r.bestDiff.Finite?
  {
    var c := Candidate(img, p);
    var diff := Difference(AverageColor(img, c.x, c.y, SECTION_SIZE), target);
    if Less(diff, acc.bestDiff) then Search(diff, c) else acc
  }

  /** The loop's variables after the given candidates, in drawing order. */
  function SearchAll(img: Image, target: Option<Color>, probes: seq<Probe>): (r: Search)
    requires Searchable(img) && ValidProbes(probes)
    ensures !r.bestDiff.NaN?
    ensures r.bestDiff.Infinity? <==> r == INITIAL_SEARCH
    decreases |probes|
  {
    if |probes| == 0 then INITIAL_SEARCH
    else
      var last := |probes| - 1;
      SearchStep(img, target, SearchAll(img, target, probes[..last]), probes[last])
  }

  /**
   * `findBestMatch(sourceImg, targetColor)` over the given candidates. With
   * no candidate, or a NaN target colour (every distance is NaN, so no
   * comparison succeeds), it stays at the initial (0, 0); otherwise it is a
   * candidate corner, inside the source image.
   */
  function FindBestMatch(img: Image, target: Option<Color>, probes: seq<Probe>): (best: Pos)
    requires Searchable(img) && ValidProbes(probes)
    ensures target.None? || |probes| == 0 ==> best == Pos(0, 0)
    ensures 0 <= best.x <= img.width - SECTION_SIZE && 0 <= best.y <= img.height - SECTION_SIZE
  {
    SearchOutcome(img, target, probes);
    SearchAll(img, target, probes).best
  }

  /**
   * The search with a NaN target never leaves its initial state; with a
   * colour target it holds a candidate corner as soon as one was drawn.
   */
  lemma {:induction false} SearchOutcome(img: Image, target: Option<Color>, probes: seq<Probe>)
    requires Searchable(img) && ValidProbes(probes)
    ensures target.None? || |probes| == 0 ==> SearchAll(img, target, probes) == INITIAL_SEARCH
    ensures target.Some? && |probes| > 0 ==>
      SearchAll(img, target, probes).bestDiff.Finite? &&
      exists k :: 0 <= k < |probes| && SearchAll(img, target, probes).best == Candidate(img, probes[k])
    ensures var b := SearchAll(img, target, probes).best;
      0 <= b.x <= img.width - SECTION_SIZE && 0 <= b.y <= img.height - SECTION_SIZE
    decreases |probes|
  {
    if |probes| > 0 {
      var last := |probes| - 1;
      SearchOutcome(img, target, probes[..last]);
      if target.Some? && last > 0 {
        var k :| 0 <= k < last && SearchAll(img, target, probes[..last]).best == Candidate(img, probes[..last][k]);
        assert probes[..last][k] == probes[k];
      }
    }
  }

  /** A candidate's measured difference from a colour target is its (finite) distance. */
  lemma CandidateDifference(img: Image, target: Color, p: Probe)
    requires Searchable(img) && ValidProbe(p)
    ensures var c := Candidate(img, p);
      Difference(AverageColor(img, c.x, c.y, SECTION_SIZE), Some(target)) == Finite(ProbeDifference(img, target, p))
  {
  }

  /**
   * The scan computes the earliest minimum: after the candidates so far,
   * `bestDiff` is the least distance and the best corner is that of the
   * first candidate reaching it.
   */
  lemma {:induction false} SearchIsFirstMinimum(img: Image, target: Color, probes: seq<Probe>)
    requires Searchable(img) && ValidProbes(probes) && |probes| > 0
    ensures var ds := Distances(img, target, probes);
      var k := FirstMinimum(ds);
      SearchAll(img, Some(target), probes) == Search(Finite(ds[k]), Candidate(img, probes[k]))
    decreases |probes|
  {
    if |probes| == 1 {
      CandidateDifference(img, target, probes[0]);
      assert Distances(img, target, probes)[0] == ProbeDifference(img, target, probes[0]);
    } else {
      SearchIsFirstMinimum(img, target, probes[..|probes| - 1]);
      SearchStepFirstMinimum(img, target, probes);
    }
  }

  /** The inductive step of `SearchIsFirstMinimum`: one more candidate keeps the scan at the earliest minimum. */
  lemma SearchStepFirstMinimum(img: Image, target: Color, probes: seq<Probe>)
    requires Searchable(img) && ValidProbes(probes) && |probes| > 1
    requires var pre := probes[..|probes| - 1];
      var ds := Distances(img, target, pre);
      var k := FirstMinimum(ds);
      SearchAll(img, Some(target), pre) == Search(Finite(ds[k]), Candidate(img, pre[k]))
    ensures var ds := Distances(img, target, probes);
      var k := FirstMinimum(ds);
      SearchAll(img, Some(target), probes) == Search(Finite(ds[k]), Candidate(img, probes[k]))
  {
    var last := |probes| - 1;
    var pre := probes[..last];
    var ds := Distances(img, target, probes);
    var d := ProbeDifference(img, target, probes[last]);
    CandidateDifference(img, target, probes[last]);
    assert ds[last] == d && ds[..last] == Distances(img, target, pre);
    var k := FirstMinimum(ds[..last]);
    assert pre[k] == probes[k] && ds[..last][k] == ds[k];
    var acc := SearchAll(img, Some(target), pre);
    assert acc == Search(Finite(ds[k]), Candidate(img, probes[k]));
    assert SearchAll(img, Some(target), probes) == SearchStep(img, Some(target), acc, probes[last]);
    if d < ds[k] {
      assert FirstMinimum(ds) == last;
      assert SearchStep(img, Some(target), acc, probes[last]) == Search(Finite(d), Candidate(img, probes[last]));
    } else {
      assert FirstMinimum(ds) == k;
      assert SearchStep(img, Some(target), acc, probes[last]) == acc;
    }
  }

  /**
   * The source's loop: `bestDiff` starts at `Infinity`, and a candidate
   * replaces the best so far only when its distance is strictly smaller.
   */
  method SearchBestMatch(img: Image, target: Option<Color>, probes: seq<Probe>) returns (best: Pos)
    requires Searchable(img) && ValidProbes(probes)
    ensures best == FindBestMatch(img, target, probes)
  {
    var bestDiff := Infinity;
    var bestX, bestY := 0, 0;
    var i := 0;
    while i < |probes|
      invariant 0 <= i <= |probes|
      invariant Search(bestDiff, Pos(bestX, bestY)) == SearchAll(img, target, probes[..i])
    {
      var x := RandomFloor(probes[i].ux, img.width - SECTION_SIZE);
      var y := RandomFloor(probes[i].uy, img.height - SECTION_SIZE);
      var avgColor := GetAverageColor(img, x, y, SECTION_SIZE);
      var diff := Difference(avgColor, target);
      if Less(diff, bestDiff) {
        bestDiff := diff;
        bestX, bestY := x, y;
      }
      assert probes[..i + 1][..i] == probes[..i];
      i := i + 1;
    }
    assert probes[..i] == probes;
    best := Pos(bestX, bestY);
  }

  /**
   * The retained candidate is one of those drawn, no drawn candidate is
   * closer to the target, and every candidate drawn before it is strictly
   * farther.
   */
  lemma BestMatchIsEarliestMinimum(img: Image, target: Color, probes: seq<Probe>)
    requires Searchable(img) && ValidProbes(probes) && |probes| > 0
    ensures exists k ::
      && 0 <= k < |probes|
      && FindBestMatch(img, Some(target), probes) == Candidate(img, probes[k])
      && (forall j :: 0 <= j < |probes| ==>
            ProbeDifference(img, target, probes[k]) <= ProbeDifference(img, target, probes[j]))
      && (forall j :: 0 <= j < k ==>
            ProbeDifference(img, target, probes[k]) < ProbeDifference(img, target, probes[j]))
  {
    var ds := Distances(img, target, probes);
    SearchIsFirstMinimum(img, target, probes);
    DistancesAll(img, target, probes);
    var k := FirstMinimum(ds);
    assert ds[k] == ProbeDifference(img, target, probes[k]);
  }

  /** A single candidate is returned whatever its distance, unless the target is NaN. */
  lemma SingleCandidate(img: Image, target: Color, p: Probe)
    requires Searchable(img) && ValidProbe(p)
    ensures FindBestMatch(img, Some(target), [p]) == Candidate(img, p)
  {
    SearchIsFirstMinimum(img, target, [p]);
  }

  /** When every candidate is equally far from the target (a solid source image), the first one is kept. */
  lemma TiesKeepFirst(img: Image, target: Color, probes: seq<Probe>)
    requires Searchable(img) && ValidProbes(probes) && |probes| > 0
    requires forall j :: 0 <= j < |probes| ==>
      ProbeDifference(img, target, probes[j]) == ProbeDifference(img, target, probes[0])
    ensures FindBestMatch(img, Some(target), probes) == Candidate(img, probes[0])
  {
    var ds := Distances(img, target, probes);
    SearchIsFirstMinimum(img, target, probes);
    DistancesAll(img, target, probes);
    FirstMinimumUnique(ds, 0);
  }

  /**
   * Once a candidate matches the target exactly, nothing later replaces it:
   * the retained candidate matches exactly and comes no later than the
   * first exact match.
   */
  lemma ExactMatchIsFinal(img: Image, target: Color, probes: seq<Probe>, e: nat)
    requires Searchable(img) && ValidProbes(probes)
    requires e < |probes| && CandidateColor(img, probes[e]) == target
    ensures exists k ::
      && 0 <= k <= e
      && FindBestMatch(img, Some(target), probes) == Candidate(img, probes[k])
      && CandidateColor(img, probes[k]) == target
  {
    var ds := Distances(img, target, probes);
    var k := FirstMinimum(ds);
    SearchIsFirstMinimum(img, target, probes);
    DistancesAt(img, target, probes, e);
    DistancesAt(img, target, probes, k);
    assert ds[e] == 0.0;
  }
}
