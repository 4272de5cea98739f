/**
 * The target-image cycle of `updateTargetBlend`: every frame `blendAmount`
 * grows by `transitionSpeed`; when it reaches 1 it restarts at 0, the next
 * target becomes the current one, and the image after it (cyclically)
 * becomes the next one. Images are identified by their index in
 * `targetImages`, so `targetImages.indexOf(currentTargetImage)` is the index
 * just installed.
 */
module TransitionBlender {

  /** Number of target images (`NUM_TARGET_IMAGES`). */
  const NUM_TARGET_IMAGES: nat := 5

  /** Per-frame growth of `blendAmount` (`transitionSpeed`): 1/2000. */
  const TRANSITION_SPEED: real := 0.0005

  /** `blendAmount` with the indices of `currentTargetImage` and `nextTargetImage`. */
  datatype Blend = Blend(amount: real, current: nat, next: nat)

  /** The state `setup` leaves: `targetImages[0]` fading into `targetImages[1]`. */
  const INITIAL_BLEND: Blend := Blend(0.0, 0, 1)

  /**
   * What holds of the blend between frames: the amount is in [0, 1), both
   * indices name one of the `n` images, and the next image is the one after
   * the current one.
   */
  predicate CycleInvariant(b: Blend, n: nat) {
    && 0.0 <= b.amount < 1.0
    && b.current < n
    && b.next == (b.current + 1) % n
  }

  /** The switch: the next image becomes current, and its successor modulo `n` becomes next. */
  function Advance(b: Blend, n: nat): (r: Blend)
    requires n > 0
    ensures r.amount == 0.0 && r.current == b.next && r.next < n
    ensures b.next < n ==> CycleInvariant(r, n)
  {
    Blend(0.0, b.next, (b.next + 1) % n)
  }

  /**
   * `updateTargetBlend` on `n` target images at speed `speed`. Either the
   * pair of images is kept and the amount grows by exactly `speed`, or the
   * sum reached 1 and the pair advanced with the amount back at 0.
   */
  function UpdateTargetBlend(b: Blend, speed: real, n: nat): (r: Blend)
    requires n > 0
    ensures b.amount + speed < 1.0 ==>
      r.amount == b.amount + speed && r.current == b.current && r.next == b.next
    ensures b.amount + speed >= 1.0 ==>
      r.amount == 0.0 && r.current == b.next && r.next == (b.next + 1) % n
    ensures speed >= 0.0 && 0.0 <= b.amount < 1.0 ==> 0.0 <= r.amount < 1.0
  {
    var amount := b.amount + speed;
    if amount >= 1.0 then Advance(b, n) else b.(amount := amount)
  }

  /** A frame's update keeps the cycle invariant when the speed is not negative. */
  lemma UpdatePreservesInvariant(b: Blend, speed: real, n: nat)
    requires n > 0 && speed >= 0.0 && CycleInvariant(b, n)
    ensures CycleInvariant(UpdateTargetBlend(b, speed, n), n)
  {
    var r := UpdateTargetBlend(b, speed, n);
    if b.amount + speed >= 1.0 {
      assert r.current == b.next && b.next < n;
    }
  }

  /** The state after `k` frames; the images shown stay among the `n` targets. */
  function Frames(b: Blend, speed: real, n: nat, k: nat): (r: Blend)
    requires n > 0
    ensures b.current < n && b.next < n ==> r.current < n && r.next < n
    decreases k
  {
    if k == 0 then b else UpdateTargetBlend(Frames(b, speed, n, k - 1), speed, n)
  }

  /** Any number of frames keeps the cycle invariant. */
  lemma {:induction false} FramesPreserveInvariant(b: Blend, speed: real, n: nat, k: nat)
    requires n > 0 && speed >= 0.0 && CycleInvariant(b, n)
    ensures CycleInvariant(Frames(b, speed, n, k), n)
    decreases k
  {
    if k > 0 {
      FramesPreserveInvariant(b, speed, n, k - 1);
      UpdatePreservesInvariant(Frames(b, speed, n, k - 1), speed, n);
    }
  }

  /** Until the amount reaches 1, `k` frames add `k * speed` and keep both images. */
  lemma {:induction false} FramesWithoutSwitch(b: Blend, speed: real, n: nat, k: nat)
    requires n > 0 && speed >= 0.0
    requires b.amount + k as real * speed < 1.0
    ensures Frames(b, speed, n, k) == b.(amount := b.amount + k as real * speed)
    decreases k
  {
    if k > 0 {
      OneFrameMore(b.amount, speed, k);
      FramesWithoutSwitch(b, speed, n, k - 1);
      var before := Frames(b, speed, n, k - 1);
      assert before.amount + speed == b.amount + k as real * speed;
      var after := UpdateTargetBlend(before, speed, n);
      assert after.amount == b.amount + k as real * speed;
      assert Frames(b, speed, n, k) == after;
    }
  }

  /** The amount after `k` frames is the amount after `k - 1` frames plus one step. */
  lemma OneFrameMore(a: real, speed: real, k: nat)
    requires k > 0 && speed >= 0.0 && a + k as real * speed < 1.0
    ensures a + (k - 1) as real * speed < 1.0
    ensures a + k as real * speed == (a + (k - 1) as real * speed) + speed
  {
  }

  /**
   * At the sketch's speed the first switch happens on frame 2000 exactly:
   * frame 1999 still shows the first pair at 1999/2000, and the next update
   * moves on to images 1 and 2.
   */
  lemma FirstSwitch()
    ensures Frames(INITIAL_BLEND, TRANSITION_SPEED, NUM_TARGET_IMAGES, 1999) == Blend(0.9995, 0, 1)
    ensures Frames(INITIAL_BLEND, TRANSITION_SPEED, NUM_TARGET_IMAGES, 2000) == Blend(0.0, 1, 2)
  {
    FramesWithoutSwitch(INITIAL_BLEND, TRANSITION_SPEED, NUM_TARGET_IMAGES, 1999);
  }

  /** `w` switches in a row, starting from `b`. */
  function Switches(b: Blend, n: nat, w: nat): (r: Blend)
    requires n > 0
    decreases w
  {
    if w == 0 then b else Advance(Switches(b, n, w - 1), n)
  }

  /**
   * The switches visit the images in cyclic order: after `w` of them the
   * current image is `w` places further on, and the next one the place after.
   */
  lemma {:induction false} SwitchesRotate(b: Blend, n: nat, w: nat)
    requires n > 0 && CycleInvariant(b, n)
    ensures Switches(b, n, w).current == (b.current + w) % n
    ensures Switches(b, n, w).next == (b.current + w + 1) % n
    decreases w
  {
    if w > 0 {
      SwitchesRotate(b, n, w - 1);
      ModSucc(b.current + w - 1, n);
      ModSucc(b.current + w, n);
    }
  }

  /** `((a % n) + 1) % n == (a + 1) % n`. */
  lemma ModSucc(a: nat, n: nat)
    requires n > 0
    ensures ((a % n) + 1) % n == (a + 1) % n
  {
    var q, r := a / n, a % n;
    if r + 1 < n {
      ModUnique(a + 1, n, q, r + 1);
      ModUnique(r + 1, n, 0, r + 1);
    } else {
      ModUnique(a + 1, n, q + 1, 0);
      ModUnique(r + 1, n, 1, 0);
    }
  }

  /** The remainder is the `r` of any decomposition `a == q * n + r` with `0 <= r < n`. */
  lemma ModUnique(a: int, n: int, q: int, r: int)
    requires n > 0 && a == q * n + r && 0 <= r < n
    ensures a % n == r
  {
    var q', r' := a / n, a % n;
    var d := q - q';
    assert d * n == r' - r;
    if d > 0 {
      MulAtLeast(d, n);
    } else if d < 0 {
      MulAtLeast(-d, n);
    }
  }

  lemma MulAtLeast(d: int, n: int)
    requires d >= 1 && n >= 0
    ensures d * n >= n
  {
  }

  /** After `n` switches the cycle is back at its starting pair of images. */
  lemma SwitchesReturn(b: Blend, n: nat)
    requires n > 0 && CycleInvariant(b, n)
    ensures Switches(b, n, n).current == b.current && Switches(b, n, n).next == b.next
  {
    SwitchesRotate(b, n, n);
    ModUnique(b.current + n, n, 1, b.current);
    ModSucc(b.current + n, n);
    ModSucc(b.current, n);
  }
}
