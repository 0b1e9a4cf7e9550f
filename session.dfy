/** The per-frame enrichment `HandDetector.determine_gesture` performs on top
    of the classifier, and the one piece of state it carries across frames:
    the previous position of the index fingertip. */
module Session {
  import opened Geometry
  import opened Classifier

  datatype Option<T> = None | Some(value: T)

  /** A pixel position as (row, column), that is (y, x). */
  type Position = (int, int)

  /** The values the result dictionary holds. A radius is kept as the square
      of the Euclidean distance the source stores. */
  datatype Value =
    | GestureVal(gesture: Gesture)
    | LandmarkVal(landmark: Triple)
    | RadiusSquared(squared: int)
    | ShiftVal(rows: int, cols: int)

  /** The result of one frame: the source's dictionary, keyed by its own
      strings. */
  type Post = map<string, Value>

  /** What `determine_gesture` accepts from `detect_landmarks`: no hand at
      all, or a hand with the 21 landmarks it indexes. */
  predicate Detected(landmarks: seq<Triple>) {
    |landmarks| == 0 || |landmarks| >= 21
  }

  /** `euclidean_dist(a[1:], b[1:])` squared: the distance between the
      (x, y) parts of two landmarks, the index left out. */
  function DistanceSquared(a: Triple, b: Triple): (d: int)
    ensures d >= 0
    ensures d == 0 <==> a.x == b.x && a.y == b.y
  {
    var dx, dy := a.x - b.x, a.y - b.y;
    SquarePositive(dx);
    SquarePositive(dy);
    dx * dx + dy * dy
  }

  /** The shift a MOVE frame reports for the index fingertip `tip`: a
      missing previous position is first seeded with the current one. */
  function Shift(prev: Option<Position>, tip: Triple): Position {
    var seeded := if prev.None? then (tip.y, tip.x) else prev.value;
    (tip.y - seeded.0, tip.x - seeded.1)
  }

  /** The keys beyond `gesture` and `idx_fing_tip` a gesture adds. */
  function ExtraKeys(g: Gesture): set<string> {
    if g == Erase then {"mid_fing_tip", "idx_mid_radius"}
    else if g == Move then {"idx_pinky_radius", "shift"}
    else {}
  }

  /** The dictionary `determine_gesture` returns, given the previous
      position held before the call. */
  function PostOf(prev: Option<Position>, landmarks: seq<Triple>): Post
    requires Detected(landmarks)
  {
    if |landmarks| == 0 then map[]
    else
      var gesture := Classify(landmarks, DefaultThreshold);
      var idxFinger, midFing, pinkyFinger := landmarks[8], landmarks[12], landmarks[20];
      var post := map["gesture" := GestureVal(gesture), "idx_fing_tip" := LandmarkVal(idxFinger)];
      if gesture == Erase then
        post["mid_fing_tip" := LandmarkVal(midFing)]
            ["idx_mid_radius" := RadiusSquared(DistanceSquared(idxFinger, midFing))]
      else if gesture == Move then
        post["idx_pinky_radius" := RadiusSquared(DistanceSquared(idxFinger, pinkyFinger))]
            ["shift" := ShiftVal(Shift(prev, idxFinger).0, Shift(prev, idxFinger).1)]
      else post
  }

  /** The previous position held after the call. */
  function NextPosition(prev: Option<Position>, landmarks: seq<Triple>): Option<Position>
    requires Detected(landmarks)
  {
    if |landmarks| == 0 then prev else Some((landmarks[8].y, landmarks[8].x))
  }

  /** The previous position after a run of frames, starting from `prev`. */
  function Track(prev: Option<Position>, frames: seq<seq<Triple>>): Option<Position>
    requires forall k :: 0 <= k < |frames| ==> Detected(frames[k])
    decreases |frames|
  {
    if frames == [] then prev else Track(NextPosition(prev, frames[0]), frames[1..])
  }

  /** The hand detector's session state: the previous index fingertip
      position, absent until a hand has been seen. */
  class HandDetector {
    var prevPosition: Option<Position>

    constructor ()
      ensures prevPosition == None
    {
      prevPosition := None;
    }

    /** `determine_gesture`, taking the landmark list `detect_landmarks`
        would produce for the frame. */
    method DetermineGesture(landmarks: seq<Triple>) returns (post: Post)
      requires Detected(landmarks)
      modifies this
      ensures post == PostOf(old(prevPosition), landmarks)
      ensures prevPosition == NextPosition(old(prevPosition), landmarks)
    {
      if |landmarks| == 0 {
        // no hand detected
        return map[];
      }
      var gesture := Classify(landmarks, DefaultThreshold);
      var idxFinger := landmarks[8];
      var midFing := landmarks[12];
      var pinkyFinger := landmarks[20];

      post := map["gesture" := GestureVal(gesture), "idx_fing_tip" := LandmarkVal(idxFinger)];
      if gesture == Erase {
        var distance := DistanceSquared(idxFinger, midFing);
        post := post["mid_fing_tip" := LandmarkVal(midFing)];
        post := post["idx_mid_radius" := RadiusSquared(distance)];
      } else if gesture == Move {
        var distance := DistanceSquared(idxFinger, pinkyFinger);
        post := post["idx_pinky_radius" := RadiusSquared(distance)];
        var c, r := idxFinger.x, idxFinger.y;
        if prevPosition == None {
          prevPosition := Some((r, c));
        }
        var shift := (r - prevPosition.value.0, c - prevPosition.value.1);
        post := post["shift" := ShiftVal(shift.0, shift.1)];
      }
      prevPosition := Some((idxFinger.y, idxFinger.x));
    }
  }

  // Properties of one frame.

  /** No hand: the result is empty and the previous position is kept. */
  lemma NoHandKeepsPosition(prev: Option<Position>)
    ensures PostOf(prev, []) == map[]
    ensures NextPosition(prev, []) == prev
  {
  }

  /** With a hand, the result holds `gesture` and `idx_fing_tip`, plus
      exactly the extra keys of its gesture, and the index fingertip becomes
      the previous position whatever the gesture. */
  lemma PostKeys(prev: Option<Position>, landmarks: seq<Triple>)
    requires |landmarks| >= 21
    ensures var post := PostOf(prev, landmarks);
      var g := Classify(landmarks, DefaultThreshold);
      && post.Keys == {"gesture", "idx_fing_tip"} + ExtraKeys(g)
      && post["gesture"] == GestureVal(g)
      && post["idx_fing_tip"] == LandmarkVal(landmarks[8])
    ensures NextPosition(prev, landmarks) == Some((landmarks[8].y, landmarks[8].x))
  {
  }

  /** ERASE adds the middle fingertip and the squared index-to-middle
      distance. */
  lemma EraseFields(prev: Option<Position>, landmarks: seq<Triple>)
    requires |landmarks| >= 21
    ensures Classify(landmarks, DefaultThreshold) == Erase ==>
      var post := PostOf(prev, landmarks);
      && post["mid_fing_tip"] == LandmarkVal(landmarks[12])
      && post["idx_mid_radius"] == RadiusSquared(DistanceSquared(landmarks[8], landmarks[12]))
  {
  }

  /** MOVE adds the squared index-to-pinky distance and the shift of the
      index fingertip from the previous position, (0, 0) on a first frame. */
  lemma MoveFields(prev: Option<Position>, landmarks: seq<Triple>)
    requires |landmarks| >= 21
    ensures Classify(landmarks, DefaultThreshold) == Move ==>
      var post := PostOf(prev, landmarks);
      var tip := landmarks[8];
      && post["idx_pinky_radius"] == RadiusSquared(DistanceSquared(tip, landmarks[20]))
      && post["shift"] == (match prev
                           case None => ShiftVal(0, 0)
                           case Some(p) => ShiftVal(tip.y - p.0, tip.x - p.1))
  {
  }

  // Properties across frames.

  /** Frames without a hand leave the previous position untouched. */
  lemma {:induction false} EmptyFramesKeepPosition(prev: Option<Position>, frames: seq<seq<Triple>>)
    requires forall k :: 0 <= k < |frames| ==> frames[k] == []
    ensures Track(prev, frames) == prev
  {
    if frames != [] {
      EmptyFramesKeepPosition(NextPosition(prev, frames[0]), frames[1..]);
    }
  }

  /** The shift of a MOVE frame is the displacement of the index fingertip
      since the last frame with a hand, however many frames without a hand
      came between: the previous position is never reset. */
  lemma ShiftSinceLastHand(prev: Option<Position>, before: seq<Triple>,
                           gap: seq<seq<Triple>>, now: seq<Triple>)
    requires |before| >= 21 && |now| >= 21
    requires forall k :: 0 <= k < |gap| ==> gap[k] == []
    ensures Classify(now, DefaultThreshold) == Move ==>
      var held := Track(NextPosition(prev, before), gap);
      PostOf(held, now)["shift"] ==
        ShiftVal(now[8].y - before[8].y, now[8].x - before[8].x)
  {
    LastHandHeld(prev, before, gap);
    ShiftFromHeld(Track(NextPosition(prev, before), gap), before, now);
  }

  /** A MOVE frame measures its shift from the fingertip of the frame that
      set the previous position. */
  lemma ShiftFromHeld(held: Option<Position>, before: seq<Triple>, now: seq<Triple>)
    requires |before| >= 21 && |now| >= 21
    requires held == Some((before[8].y, before[8].x))
    ensures Classify(now, DefaultThreshold) == Move ==>
      PostOf(held, now)["shift"] == ShiftVal(now[8].y - before[8].y, now[8].x - before[8].x)
  {
    MoveFields(held, now);
  }

  /** After a frame with a hand and a run of frames without one, the
      previous position is that frame's index fingertip. */
  lemma LastHandHeld(prev: Option<Position>, before: seq<Triple>, gap: seq<seq<Triple>>)
    requires |before| >= 21
    requires forall k :: 0 <= k < |gap| ==> gap[k] == []
    ensures Track(NextPosition(prev, before), gap) == Some((before[8].y, before[8].x))
  {
    EmptyFramesKeepPosition(NextPosition(prev, before), gap);
  }

  /** A session as a caller sees it: a first MOVE frame reports no shift, a
      frame without a hand reports nothing, and a later MOVE frame reports
      the displacement since the first. */
  method SessionScenario(first: seq<Triple>, later: seq<Triple>)
    requires |first| >= 21 && Classify(first, DefaultThreshold) == Move
    requires |later| >= 21 && Classify(later, DefaultThreshold) == Move
  {
    var detector := new HandDetector();
    var post := detector.DetermineGesture(first);
    MoveFields(None, first);
    assert post["shift"] == ShiftVal(0, 0);
    post := detector.DetermineGesture([]);
    assert post == map[];
    var held := detector.prevPosition;
    post := detector.DetermineGesture(later);
    MoveFields(held, later);
    assert post["shift"] == ShiftVal(later[8].y - first[8].y, later[8].x - first[8].x);
  }
}
