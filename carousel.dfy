/**
 * Per-record image carousels: the `activeIndex` map from record id to the
 * shown image, its wrap-around steps, and the touch-swipe rule.
 */
module Carousel {
  import opened Wrappers

  /** Horizontal travel, in pixels, below which a touch is not a swipe. */
  const SwipeThreshold: int := 50

  /** `activeIndex`: record id to the index of the shown image. */
  type Cursors = map<nat, nat>

  /** `activeIndex[id] || 0`: a record nobody has moved shows its first image. */
  function Cursor(m: Cursors, id: nat): nat {
    if id in m then m[id] else 0
  }

  /** The map after `nextImage(id, length)`. */
  function StepForward(m: Cursors, id: nat, length: nat): (r: Cursors)
    requires length >= 1
    ensures r.Keys == m.Keys + {id}
    ensures forall k :: k in m && k != id ==> r[k] == m[k]
    ensures Cursor(m, id) < length - 1 ==> r[id] == Cursor(m, id) + 1
    ensures Cursor(m, id) == length - 1 ==> r[id] == 0
    ensures r[id] < length
  {
    m[id := (Cursor(m, id) + 1) % length]
  }

  /** The map after `prevImage(id, length)`. */
  function StepBack(m: Cursors, id: nat, length: nat): (r: Cursors)
    requires length >= 1
    ensures r.Keys == m.Keys + {id}
    ensures forall k :: k in m && k != id ==> r[k] == m[k]
    ensures Cursor(m, id) <= length ==> r[id] < length
  {
    m[id := if Cursor(m, id) == 0 then length - 1 else Cursor(m, id) - 1]
  }

  /** Going back undoes going forward. */
  lemma StepBackUndoesStepForward(m: Cursors, id: nat, length: nat)
    requires length >= 1 && Cursor(m, id) < length
    ensures Cursor(StepBack(StepForward(m, id, length), id, length), id) == Cursor(m, id)
    ensures id in m ==> StepBack(StepForward(m, id, length), id, length) == m
  {
    var c := Cursor(m, id);
    var r := StepBack(StepForward(m, id, length), id, length);
    assert r[id] == c;
    if id in m {
      assert r.Keys == m.Keys;
    }
  }

  /** Going forward undoes going back. */
  lemma StepForwardUndoesStepBack(m: Cursors, id: nat, length: nat)
    requires length >= 1 && Cursor(m, id) < length
    ensures Cursor(StepForward(StepBack(m, id, length), id, length), id) == Cursor(m, id)
    ensures id in m ==> StepForward(StepBack(m, id, length), id, length) == m
  {
    var c := Cursor(m, id);
    var r := StepForward(StepBack(m, id, length), id, length);
    assert r[id] == c;
    if id in m {
      assert r.Keys == m.Keys;
    }
  }

  /** `k` presses of the next arrow on the same carousel. */
  function StepsForward(m: Cursors, id: nat, length: nat, k: nat): (r: Cursors)
    requires length >= 1
  {
    if k == 0 then m else StepForward(StepsForward(m, id, length, k - 1), id, length)
  }

  /** Steps on one carousel leave every other carousel alone. */
  lemma {:induction false} StepsForwardFrame(m: Cursors, id: nat, length: nat, k: nat)
    requires length >= 1
    ensures StepsForward(m, id, length, k).Keys == if k == 0 then m.Keys else m.Keys + {id}
    ensures forall j :: j in m && j != id ==> StepsForward(m, id, length, k)[j] == m[j]
  {
    if k > 0 {
      StepsForwardFrame(m, id, length, k - 1);
    }
  }

  /** Before the wrap-around, each step moves the cursor to the next image. */
  lemma {:induction false} StepsForwardClimb(m: Cursors, id: nat, length: nat, k: nat)
    requires length >= 1 && Cursor(m, id) + k < length
    ensures Cursor(StepsForward(m, id, length, k), id) == Cursor(m, id) + k
  {
    if k > 0 {
      StepsForwardClimb(m, id, length, k - 1);
    }
  }

  /** From image `c`, `length - c` steps wrap the carousel round to the first image. */
  lemma StepsForwardWrap(m: Cursors, id: nat, length: nat)
    requires length >= 1 && Cursor(m, id) < length
    ensures Cursor(StepsForward(m, id, length, length - Cursor(m, id)), id) == 0
  {
    var c := Cursor(m, id);
    var last := StepsForward(m, id, length, length - 1 - c);
    StepsForwardClimb(m, id, length, length - 1 - c);
    assert StepsForward(m, id, length, length - c) == StepForward(last, id, length);
  }

  /** Past the wrap-around, the cursor has gone once round the images. */
  lemma {:induction false} StepsForwardPastWrap(m: Cursors, id: nat, length: nat, k: nat)
    requires length >= 1 && Cursor(m, id) < length
    requires length <= Cursor(m, id) + k < 2 * length
    ensures Cursor(StepsForward(m, id, length, k), id) == Cursor(m, id) + k - length
  {
    if Cursor(m, id) + k == length {
      StepsForwardWrap(m, id, length);
    } else {
      StepsForwardPastWrap(m, id, length, k - 1);
    }
  }

  /** As many steps as there are images bring the cursor back to the image it showed. */
  lemma FullTurnCursor(m: Cursors, id: nat, length: nat)
    requires length >= 1 && Cursor(m, id) < length
    ensures Cursor(StepsForward(m, id, length, length), id) == Cursor(m, id)
  {
    StepsForwardPastWrap(m, id, length, length);
  }

  /** As many steps as there are images bring the carousel back to where it was. */
  lemma FullTurnReturns(m: Cursors, id: nat, length: nat)
    requires length >= 1 && Cursor(m, id) < length
    ensures Cursor(StepsForward(m, id, length, length), id) == Cursor(m, id)
    ensures id in m ==> StepsForward(m, id, length, length) == m
  {
    FullTurnCursor(m, id, length);
    StepsForwardFrame(m, id, length, length);
    if id in m {
      var r := StepsForward(m, id, length, length);
      assert r.Keys == m.Keys;
    }
  }

  datatype Swipe = NoSwipe | SwipeNext | SwipePrev

  /** `handleTouchEnd`'s decision from the start and end positions of the touch. */
  function SwipeOf(startX: int, endX: int): (s: Swipe)
    ensures s == NoSwipe <==> -SwipeThreshold < startX - endX < SwipeThreshold
    ensures s == SwipeNext <==> startX - endX >= SwipeThreshold
    ensures s == SwipePrev <==> startX - endX <= -SwipeThreshold
  {
    var delta := startX - endX;
    if (if delta < 0 then -delta else delta) < SwipeThreshold then NoSwipe
    else if delta > 0 then SwipeNext
    else SwipePrev
  }

  function ApplySwipe(m: Cursors, s: Swipe, id: nat, length: nat): Cursors
    requires length >= 1
  {
    match s
    case NoSwipe => m
    case SwipeNext => StepForward(m, id, length)
    case SwipePrev => StepBack(m, id, length)
  }

  /** `images[index]?.image_url`: no image when the index is past the list. */
  function ShownImage(images: seq<string>, m: Cursors, id: nat): (u: Option<string>)
    ensures u.Some? <==> Cursor(m, id) < |images|
    ensures u.Some? ==> u.value == images[Cursor(m, id)]
  {
    if Cursor(m, id) < |images| then Some(images[Cursor(m, id)]) else None
  }
}
