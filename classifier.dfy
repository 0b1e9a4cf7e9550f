/** The gesture classifier `HandDetector.detect_gesture` (non-debug path): an
    ordered, first-match decision list over the palm and finger vectors of a
    hand's 21 landmarks. Every cosine comparison is in the exact integer form
    of module Geometry. */
module Classifier {
  import opened Geometry

  /** The labels the classifier returns, one per string it can return. */
  datatype Gesture = Draw | ShapeLaunch | Screenshot | Hover | Erase | Move | MathLaunch

  /** The default `threshhold` of `detect_gesture`. */
  const DefaultThreshold: real := 0.70

  /** The shape `detect_landmarks` produces: at least 21 landmarks, each
      carrying its own position in the list as its index. */
  ghost predicate WellFormed(landmarks: seq<Triple>) {
    |landmarks| >= 21 && forall i :: 0 <= i < |landmarks| ==> landmarks[i].idx == i
  }

  /** The ten vectors `detect_gesture` derives: five palm vectors from the
      wrist, five finger vectors from a mid joint to the tip. */
  datatype HandVectors = HandVectors(
    palmIndex: Triple, palmMid: Triple, palmRing: Triple, palmPinky: Triple, palmThumb: Triple,
    index: Triple, middle: Triple, ring: Triple, pinky: Triple, thumb: Triple)

  function Vectors(landmarks: seq<Triple>): HandVectors
    requires |landmarks| >= 21
  {
    HandVectors(
      Vectorize(landmarks[0], landmarks[5]),
      Vectorize(landmarks[0], landmarks[9]),
      Vectorize(landmarks[0], landmarks[13]),
      Vectorize(landmarks[0], landmarks[17]),
      Vectorize(landmarks[0], landmarks[4]),
      Vectorize(landmarks[6], landmarks[8]),
      Vectorize(landmarks[10], landmarks[12]),
      Vectorize(landmarks[14], landmarks[16]),
      Vectorize(landmarks[18], landmarks[20]),
      Vectorize(landmarks[1], landmarks[4]))
  }

  /** None of the ten vectors is zero, so no cosine divides by zero. */
  ghost predicate NonDegenerate(v: HandVectors) {
    Norm2(v.palmIndex) > 0 && Norm2(v.palmMid) > 0 && Norm2(v.palmRing) > 0 &&
    Norm2(v.palmPinky) > 0 && Norm2(v.palmThumb) > 0 &&
    Norm2(v.index) > 0 && Norm2(v.middle) > 0 && Norm2(v.ring) > 0 &&
    Norm2(v.pinky) > 0 && Norm2(v.thumb) > 0
  }

  /** The first components the ten vectors of a well-formed hand carry: the
      differences of the landmark indices they join. */
  ghost predicate HandIndices(v: HandVectors) {
    v.palmIndex.idx == 5 && v.palmMid.idx == 9 && v.palmRing.idx == 13 &&
    v.palmPinky.idx == 17 && v.palmThumb.idx == 4 &&
    v.index.idx == 2 && v.middle.idx == 2 && v.ring.idx == 2 &&
    v.pinky.idx == 2 && v.thumb.idx == 3
  }

  /** On a well-formed landmark list every vector's first component is the
      difference of two distinct indices, hence no vector is zero. */
  lemma VectorsNonDegenerate(landmarks: seq<Triple>)
    requires WellFormed(landmarks)
    ensures HandIndices(Vectors(landmarks))
    ensures NonDegenerate(Vectors(landmarks))
  {
    var l := landmarks;
    assert l[0].idx == 0 && l[1].idx == 1 && l[4].idx == 4 && l[5].idx == 5;
    assert l[6].idx == 6 && l[8].idx == 8 && l[9].idx == 9 && l[10].idx == 10;
    assert l[12].idx == 12 && l[13].idx == 13 && l[14].idx == 14 && l[16].idx == 16;
    assert l[17].idx == 17 && l[18].idx == 18 && l[20].idx == 20;
  }

  // The rules, in the order `detect_gesture` tries them.

  /** The conjunct every rule starts with: the index finger points along its
      palm vector. */
  predicate IndexExtended(v: HandVectors, t: real) {
    CosAbove(v.palmIndex, v.index, t)
  }

  predicate DrawRule(v: HandVectors, t: real) {
    IndexExtended(v, t) &&
    CosNegative(v.index, v.middle) && CosNegative(v.index, v.ring) && CosNegative(v.index, v.pinky)
  }

  predicate ShapeLaunchRule(v: HandVectors, t: real) {
    IndexExtended(v, t) &&
    CosAbove(v.palmThumb, v.thumb, t) && CosAbove(v.palmMid, v.middle, t) &&
    CosNegative(v.palmRing, v.ring) && CosNegative(v.palmPinky, v.pinky)
  }

  predicate ScreenshotRule(v: HandVectors, t: real) {
    IndexExtended(v, t) &&
    CosAbove(v.index, v.middle, 0.80) && CosNegative(v.index, v.ring) && CosNegative(v.index, v.pinky)
  }

  predicate HoverRule(v: HandVectors, t: real) {
    IndexExtended(v, t) &&
    CosAbove(v.palmMid, v.middle, t) && CosNegative(v.index, v.ring) && CosNegative(v.index, v.pinky)
  }

  predicate EraseRule(v: HandVectors, t: real) {
    IndexExtended(v, t) &&
    CosAbove(v.index, v.middle, 0.90) && CosAbove(v.index, v.ring, 0.90) &&
    CosNegative(v.palmPinky, v.pinky)
  }

  predicate MoveRule(v: HandVectors, t: real) {
    IndexExtended(v, t) &&
    CosAbove(v.palmPinky, v.pinky, t) && CosNegative(v.index, v.middle) && CosNegative(v.index, v.ring)
  }

  predicate MathLaunchRule(v: HandVectors, t: real) {
    IndexExtended(v, t) &&
    CosAbove(v.index, v.middle, 0.0) && CosNegative(v.index, v.ring) && CosNegative(v.index, v.pinky)
  }

  /** The chain of `if ... return` in `detect_gesture`. */
  function Decide(v: HandVectors, t: real): Gesture {
    if DrawRule(v, t) then Draw
    else if ShapeLaunchRule(v, t) then ShapeLaunch
    else if ScreenshotRule(v, t) then Screenshot
    else if HoverRule(v, t) then Hover
    else if EraseRule(v, t) then Erase
    else if MoveRule(v, t) then Move
    else if MathLaunchRule(v, t) then MathLaunch
    else Hover
  }

  /** `detect_gesture(landmarks, threshhold)` with `debug` false. */
  function Classify(landmarks: seq<Triple>, t: real): Gesture
    requires |landmarks| >= 21
  {
    Decide(Vectors(landmarks), t)
  }

  // A reference definition: the rules as an explicit ordered table, read
  // by a generic first-match interpreter.

  datatype Rule = DrawIf | ShapeLaunchIf | ScreenshotIf | HoverIf | EraseIf | MoveIf | MathLaunchIf

  const Cascade: seq<Rule> :=
    [DrawIf, ShapeLaunchIf, ScreenshotIf, HoverIf, EraseIf, MoveIf, MathLaunchIf]

  /** The gesture a rule yields when it matches. */
  function Label(r: Rule): Gesture {
    match r
    case DrawIf => Draw
    case ShapeLaunchIf => ShapeLaunch
    case ScreenshotIf => Screenshot
    case HoverIf => Hover
    case EraseIf => Erase
    case MoveIf => Move
    case MathLaunchIf => MathLaunch
  }

  predicate Holds(r: Rule, v: HandVectors, t: real) {
    match r
    case DrawIf => DrawRule(v, t)
    case ShapeLaunchIf => ShapeLaunchRule(v, t)
    case ScreenshotIf => ScreenshotRule(v, t)
    case HoverIf => HoverRule(v, t)
    case EraseIf => EraseRule(v, t)
    case MoveIf => MoveRule(v, t)
    case MathLaunchIf => MathLaunchRule(v, t)
  }

  /** The test of every rule on one hand at one threshold. */
  function RuleTest(v: HandVectors, t: real): Rule -> bool {
    r => Holds(r, v, t)
  }

  /** The label of the first rule of `rules` that passes `holds`, HOVER if
      none does. */
  function FirstMatch(rules: seq<Rule>, holds: Rule -> bool): Gesture {
    if rules == [] then Hover
    else if holds(rules[0]) then Label(rules[0])
    else FirstMatch(rules[1..], holds)
  }

  /** The first rule that holds decides, whatever the later rules say. */
  lemma {:induction false} FirstMatchEarliest(rules: seq<Rule>, holds: Rule -> bool, i: int)
    requires 0 <= i < |rules| && holds(rules[i])
    requires forall j :: 0 <= j < i ==> !holds(rules[j])
    ensures FirstMatch(rules, holds) == Label(rules[i])
  {
    if i > 0 {
      assert !holds(rules[0]);
      FirstMatchEarliest(rules[1..], holds, i - 1);
    }
  }

  /** When no rule holds, the result is the fallback HOVER. */
  lemma {:induction false} FirstMatchFallback(rules: seq<Rule>, holds: Rule -> bool)
    requires forall j :: 0 <= j < |rules| ==> !holds(rules[j])
    ensures FirstMatch(rules, holds) == Hover
  {
    if rules != [] {
      assert !holds(rules[0]);
      FirstMatchFallback(rules[1..], holds);
    }
  }

  /** The position of the first rule that passes `holds`, or `|rules|` when
      none does. */
  lemma {:induction false} FirstPassing(rules: seq<Rule>, holds: Rule -> bool) returns (i: int)
    ensures 0 <= i <= |rules|
    ensures forall j :: 0 <= j < i ==> !holds(rules[j])
    ensures i < |rules| ==> holds(rules[i])
  {
    if rules == [] || holds(rules[0]) {
      return 0;
    }
    var k := FirstPassing(rules[1..], holds);
    i := k + 1;
    forall j | 0 <= j < i ensures !holds(rules[j]) {
      if j > 0 {
        assert rules[j] == rules[1..][j - 1];
      }
    }
  }

  /** The result is either the label of some rule that holds with no earlier
      rule holding, or HOVER with no rule holding. */
  lemma FirstMatchWitness(rules: seq<Rule>, holds: Rule -> bool)
    ensures (exists i :: 0 <= i < |rules| && holds(rules[i]) &&
               (forall j :: 0 <= j < i ==> !holds(rules[j])) &&
               FirstMatch(rules, holds) == Label(rules[i]))
         || ((forall j :: 0 <= j < |rules| ==> !holds(rules[j])) &&
             FirstMatch(rules, holds) == Hover)
  {
    var i := FirstPassing(rules, holds);
    if i < |rules| {
      FirstMatchEarliest(rules, holds, i);
    } else {
      FirstMatchFallback(rules, holds);
    }
  }

  /** The chain of `if`s is the cascade table read first-match. */
  lemma DecideIsFirstMatch(v: HandVectors, t: real)
    ensures Decide(v, t) == FirstMatch(Cascade, RuleTest(v, t))
  {
    var c, test := Cascade, RuleTest(v, t);
    if DrawRule(v, t) {
      FirstMatchEarliest(c, test, 0);
    } else if ShapeLaunchRule(v, t) {
      FirstMatchEarliest(c, test, 1);
    } else if ScreenshotRule(v, t) {
      FirstMatchEarliest(c, test, 2);
    } else if HoverRule(v, t) {
      FirstMatchEarliest(c, test, 3);
    } else if EraseRule(v, t) {
      FirstMatchEarliest(c, test, 4);
    } else if MoveRule(v, t) {
      FirstMatchEarliest(c, test, 5);
    } else if MathLaunchRule(v, t) {
      FirstMatchEarliest(c, test, 6);
    } else {
      FirstMatchFallback(c, test);
    }
  }

  /** Every result of the classifier is the label of the first rule of the
      cascade that holds, or the fallback HOVER when none holds. */
  lemma ClassifyIsFirstMatch(landmarks: seq<Triple>, t: real)
    requires |landmarks| >= 21
    ensures var v := Vectors(landmarks);
      (exists i :: 0 <= i < |Cascade| && Holds(Cascade[i], v, t) &&
         (forall j :: 0 <= j < i ==> !Holds(Cascade[j], v, t)) &&
         Classify(landmarks, t) == Label(Cascade[i]))
      || ((forall j :: 0 <= j < |Cascade| ==> !Holds(Cascade[j], v, t)) &&
          Classify(landmarks, t) == Hover)
  {
    var v := Vectors(landmarks);
    DecideIsFirstMatch(v, t);
    FirstMatchWitness(Cascade, RuleTest(v, t));
  }

  // Precedence: what each label means once the earlier rules are taken
  // into account.

  /** DRAW is returned exactly when rule 1's four conjuncts hold. */
  lemma DrawWins(v: HandVectors, t: real)
    ensures Decide(v, t) == Draw <==> DrawRule(v, t)
  {
  }

  /** If the index finger is not extended, every rule fails and the result
      is the fallback HOVER. */
  lemma IndexCurledHovers(v: HandVectors, t: real)
    requires !IndexExtended(v, t)
    ensures Decide(v, t) == Hover
  {
  }

  /** SHAPE_LAUNCH exactly when rule 2 holds and rule 1 does not. */
  lemma ShapeLaunchExactly(v: HandVectors, t: real)
    ensures Decide(v, t) == ShapeLaunch <==> ShapeLaunchRule(v, t) && !DrawRule(v, t)
  {
  }

  /** SCREENSHOT exactly when rule 3 holds and rule 2 does not: rule 1 can
      never hold beside it, as it needs the middle finger curled. */
  lemma ScreenshotExactly(v: HandVectors, t: real)
    ensures Decide(v, t) == Screenshot <==> ScreenshotRule(v, t) && !ShapeLaunchRule(v, t)
  {
  }

  /** ERASE exactly when rule 5 holds and rule 2 does not: rules 1, 3 and 4
      exclude it, as they need the middle or ring finger curled. */
  lemma EraseExactly(v: HandVectors, t: real)
    ensures Decide(v, t) == Erase <==> EraseRule(v, t) && !ShapeLaunchRule(v, t)
  {
  }

  /** MOVE exactly when rule 6 holds and rules 1, 2 and 4 do not; with rule 1
      failing, MOVE means the pinky is not curled against the index. */
  lemma MoveExactly(v: HandVectors, t: real)
    ensures Decide(v, t) == Move <==>
      MoveRule(v, t) && !DrawRule(v, t) && !ShapeLaunchRule(v, t) && !HoverRule(v, t)
    ensures Decide(v, t) == Move ==> !CosNegative(v.index, v.pinky)
  {
  }

  /** MATH_LAUNCH exactly when rule 7 holds and rules 2 to 4 do not; then the
      middle finger points with the index but not past the 0.80 bound. */
  lemma MathLaunchExactly(v: HandVectors, t: real)
    ensures Decide(v, t) == MathLaunch <==>
      MathLaunchRule(v, t) && !ShapeLaunchRule(v, t) && !ScreenshotRule(v, t) && !HoverRule(v, t)
    ensures Decide(v, t) == MathLaunch ==>
      Dot(v.index, v.middle) > 0 && !CosAbove(v.index, v.middle, 0.80)
  {
  }

  /** HOVER either from rule 4 with rules 1 to 3 failing, or because no rule
      holds. */
  lemma HoverExactly(v: HandVectors, t: real)
    ensures Decide(v, t) == Hover <==>
      (HoverRule(v, t) && !DrawRule(v, t) && !ShapeLaunchRule(v, t) && !ScreenshotRule(v, t))
      || (forall i :: 0 <= i < |Cascade| ==> !Holds(Cascade[i], v, t))
  {
    var c := Cascade;
    assert c[0] == DrawIf && c[1] == ShapeLaunchIf && c[2] == ScreenshotIf && c[3] == HoverIf;
    assert c[4] == EraseIf && c[5] == MoveIf && c[6] == MathLaunchIf;
  }

  /** On a well-formed hand with magnitudes `mi` and `mm` of the index and
      middle finger vectors, MATH_LAUNCH means 0 < cos(index, middle) <= 0.80
      for the floating cosine of the source. */
  lemma MathLaunchCosineBand(landmarks: seq<Triple>, t: real, mi: real, mm: real)
    requires |landmarks| >= 21 && Classify(landmarks, t) == MathLaunch
    requires IsMagnitude(mi, Vectors(landmarks).index) && IsMagnitude(mm, Vectors(landmarks).middle)
    ensures 0.0 < Cosine(Vectors(landmarks).index, Vectors(landmarks).middle, mi, mm) <= 0.80
  {
    var v := Vectors(landmarks);
    MathLaunchExactly(v, t);
    CosineAbove(v.index, v.middle, mi, mm, 0.0);
    CosineAbove(v.index, v.middle, mi, mm, 0.80);
  }

  // Coverage: every label is produced on some well-formed hand.

  /** Every choice of the ten vectors with the index differences of a hand
      comes from some well-formed landmark list: the (x, y) parts of the
      vectors are independent of each other. */
  lemma VectorsRealizable(v: HandVectors)
    requires HandIndices(v)
    ensures exists l :: WellFormed(l) && Vectors(l) == v
  {
    var thumbBase := Triple(1, v.palmThumb.x - v.thumb.x, v.palmThumb.y - v.thumb.y);
    var l := [
      Triple(0, 0, 0), thumbBase, Triple(2, 0, 0), Triple(3, 0, 0),
      Triple(4, v.palmThumb.x, v.palmThumb.y), Triple(5, v.palmIndex.x, v.palmIndex.y),
      Triple(6, 0, 0), Triple(7, 0, 0), Triple(8, v.index.x, v.index.y),
      Triple(9, v.palmMid.x, v.palmMid.y), Triple(10, 0, 0), Triple(11, 0, 0),
      Triple(12, v.middle.x, v.middle.y), Triple(13, v.palmRing.x, v.palmRing.y),
      Triple(14, 0, 0), Triple(15, 0, 0), Triple(16, v.ring.x, v.ring.y),
      Triple(17, v.palmPinky.x, v.palmPinky.y), Triple(18, 0, 0), Triple(19, 0, 0),
      Triple(20, v.pinky.x, v.pinky.y)];
    assert WellFormed(l);
    assert Vectors(l) == v;
  }

  /** The vectors of a hand whose palm vectors all point up the image by 100
      pixels, with the given (x, y) parts for the five finger vectors. */
  function UprightHand(ix: int, iy: int, mx: int, my: int, rx: int, ry: int,
                       px: int, py: int, tx: int, ty: int): (v: HandVectors)
    ensures HandIndices(v)
  {
    HandVectors(
      Triple(5, 0, -100), Triple(9, 0, -100), Triple(13, 0, -100), Triple(17, 0, -100), Triple(4, 0, -100),
      Triple(2, ix, iy), Triple(2, mx, my), Triple(2, rx, ry), Triple(2, px, py), Triple(3, tx, ty))
  }

  /** The rule at position `i` of the cascade is the first one that holds. */
  ghost predicate FirstToHold(v: HandVectors, t: real, i: int)
    requires 0 <= i < |Cascade|
  {
    Holds(Cascade[i], v, t) && forall j :: 0 <= j < i ==> !Holds(Cascade[j], v, t)
  }

  /** No rule of the cascade is dead: for each rule some well-formed hand at
      the default threshold fails every earlier rule, meets this one and so
      is classified by it. */
  lemma EveryRuleFires(i: int)
    requires 0 <= i < |Cascade|
    ensures exists l :: WellFormed(l) && FirstToHold(Vectors(l), DefaultThreshold, i)
                        && Classify(l, DefaultThreshold) == Label(Cascade[i])
  {
    var t := DefaultThreshold;
    var v := RuleWitness(i);
    if i == 0 {
      DrawFires();
    } else if i == 1 {
      ShapeLaunchFires();
    } else if i == 2 {
      ScreenshotFires();
    } else if i == 3 {
      HoverFires();
    } else if i == 4 {
      EraseFires();
    } else if i == 5 {
      MoveFires();
    } else {
      MathLaunchFires();
    }
    FirstToHoldRealized(v, t, i);
  }

  /** For each rule of the cascade, a hand on which it is the first to hold
      at the default threshold. Finger vectors point up (-50) or down (+50)
      the image. */
  function RuleWitness(i: int): (v: HandVectors)
    ensures HandIndices(v)
  {
    if i == 0 then UprightHand(0, -50, 0, 50, 0, 50, 0, 50, 0, 50)
    else if i == 1 then UprightHand(0, -50, 0, -50, 0, 50, 0, 50, 0, -50)
    else if i == 2 then UprightHand(0, -50, 0, -50, 0, 50, 0, 50, 0, 50)
    // The middle finger leans 40 pixels aside: extended along its palm
    // vector, yet within the 0.80 bound of the index finger.
    else if i == 3 then UprightHand(0, -50, 40, -50, 0, 50, 0, 50, 0, 50)
    else if i == 4 then UprightHand(0, -50, 0, -50, 0, -50, 0, 50, 0, 50)
    else if i == 5 then UprightHand(0, -50, 0, 50, 0, 50, 0, -50, 0, 50)
    else UprightHand(0, -50, 87, -50, 0, 50, 0, 50, 0, 50)
  }

  lemma DrawFires()
    ensures FirstToHold(RuleWitness(0), DefaultThreshold, 0)
  {
    assert DrawRule(RuleWitness(0), DefaultThreshold);
  }

  lemma ShapeLaunchFires()
    ensures FirstToHold(RuleWitness(1), DefaultThreshold, 1)
  {
    var v, t := RuleWitness(1), DefaultThreshold;
    assert !DrawRule(v, t);
    assert ShapeLaunchRule(v, t);
    assert Cascade[0] == DrawIf && Cascade[1] == ShapeLaunchIf;
  }

  lemma ScreenshotFires()
    ensures FirstToHold(RuleWitness(2), DefaultThreshold, 2)
  {
    var v, t := RuleWitness(2), DefaultThreshold;
    assert !DrawRule(v, t) && !ShapeLaunchRule(v, t);
    assert ScreenshotRule(v, t);
    assert Cascade[0] == DrawIf && Cascade[1] == ShapeLaunchIf && Cascade[2] == ScreenshotIf;
  }

  lemma HoverFires()
    ensures FirstToHold(RuleWitness(3), DefaultThreshold, 3)
  {
    var v, t := RuleWitness(3), DefaultThreshold;
    assert !DrawRule(v, t) && !ShapeLaunchRule(v, t);
    assert !ScreenshotRule(v, t);
    assert HoverRule(v, t);
    assert Cascade[0] == DrawIf && Cascade[1] == ShapeLaunchIf && Cascade[2] == ScreenshotIf;
    assert Cascade[3] == HoverIf;
  }

  lemma EraseFires()
    ensures FirstToHold(RuleWitness(4), DefaultThreshold, 4)
  {
    var v, t := RuleWitness(4), DefaultThreshold;
    assert !DrawRule(v, t) && !ShapeLaunchRule(v, t);
    assert !ScreenshotRule(v, t) && !HoverRule(v, t);
    assert EraseRule(v, t);
    assert Cascade[0] == DrawIf && Cascade[1] == ShapeLaunchIf && Cascade[2] == ScreenshotIf;
    assert Cascade[3] == HoverIf && Cascade[4] == EraseIf;
  }

  lemma MoveFires()
    ensures FirstToHold(RuleWitness(5), DefaultThreshold, 5)
  {
    var v, t := RuleWitness(5), DefaultThreshold;
    assert !DrawRule(v, t) && !ShapeLaunchRule(v, t);
    assert !ScreenshotRule(v, t) && !HoverRule(v, t) && !EraseRule(v, t);
    assert MoveRule(v, t);
    assert Cascade[0] == DrawIf && Cascade[1] == ShapeLaunchIf && Cascade[2] == ScreenshotIf;
    assert Cascade[3] == HoverIf && Cascade[4] == EraseIf && Cascade[5] == MoveIf;
  }

  lemma MathLaunchFires()
    ensures FirstToHold(RuleWitness(6), DefaultThreshold, 6)
  {
    var v, t := RuleWitness(6), DefaultThreshold;
    assert !DrawRule(v, t) && !ShapeLaunchRule(v, t);
    assert !ScreenshotRule(v, t);
    assert !HoverRule(v, t);
    assert !EraseRule(v, t) && !MoveRule(v, t);
    assert MathLaunchRule(v, t);
    assert Cascade[0] == DrawIf && Cascade[1] == ShapeLaunchIf && Cascade[2] == ScreenshotIf;
    assert Cascade[3] == HoverIf && Cascade[4] == EraseIf && Cascade[5] == MoveIf;
    assert Cascade[6] == MathLaunchIf;
  }

  /** A hand on which rule `i` is the first to hold comes from a well-formed
      landmark list classified by that rule. */
  lemma FirstToHoldRealized(v: HandVectors, t: real, i: int)
    requires HandIndices(v) && 0 <= i < |Cascade| && FirstToHold(v, t, i)
    ensures exists l :: WellFormed(l) && FirstToHold(Vectors(l), t, i)
                        && Classify(l, t) == Label(Cascade[i])
  {
    FirstMatchEarliest(Cascade, RuleTest(v, t), i);
    DecideIsFirstMatch(v, t);
    VectorsRealizable(v);
  }

  /** The fallback is reachable too: on some well-formed hand no rule holds
      and the result is HOVER. */
  lemma FallbackOccurs()
    ensures exists l :: WellFormed(l)
                        && (forall j :: 0 <= j < |Cascade| ==> !Holds(Cascade[j], Vectors(l), DefaultThreshold))
                        && Classify(l, DefaultThreshold) == Hover
  {
    var t := DefaultThreshold;
    var v := UprightHand(0, 50, 0, 50, 0, 50, 0, 50, 0, 50);
    assert !IndexExtended(v, t);
    IndexCurledHovers(v, t);
    forall j | 0 <= j < |Cascade| ensures !Holds(Cascade[j], v, t) {
    }
    VectorsRealizable(v);
  }

  /** Each of the seven labels is returned on some well-formed hand at the
      default threshold, HOVER by its own rule 4. */
  lemma EveryGestureOccurs(g: Gesture)
    ensures exists l :: WellFormed(l) && Classify(l, DefaultThreshold) == g
  {
    match g
    case Draw => EveryRuleFires(0);
    case ShapeLaunch => EveryRuleFires(1);
    case Screenshot => EveryRuleFires(2);
    case Hover => EveryRuleFires(3);
    case Erase => EveryRuleFires(4);
    case Move => EveryRuleFires(5);
    case MathLaunch => EveryRuleFires(6);
  }

  /** A vector as a reading without the index component would see it: its
      (x, y) part alone. */
  function Planar(u: Triple): (p: Triple)
    ensures p.idx == 0 && p.x == u.x && p.y == u.y
  {
    Triple(0, u.x, u.y)
  }

  function PlanarHand(v: HandVectors): HandVectors {
    HandVectors(
      Planar(v.palmIndex), Planar(v.palmMid), Planar(v.palmRing), Planar(v.palmPinky), Planar(v.palmThumb),
      Planar(v.index), Planar(v.middle), Planar(v.ring), Planar(v.pinky), Planar(v.thumb))
  }

  /** The index difference is part of every vector, and it changes the
      outcome: on a hand a few pixels across whose middle, ring and pinky
      fingers point exactly against the index finger in the image, the
      (x, y) parts alone meet every conjunct of DRAW, yet with the index
      component those fingers are not curled against the index and the
      result is not DRAW. */
  lemma IndexComponentMatters()
    ensures exists l ::
      && WellFormed(l) && IndexExtended(Vectors(l), DefaultThreshold)
      && Vectors(l).index.x * Vectors(l).index.x + Vectors(l).index.y * Vectors(l).index.y > 0
      && Vectors(l).middle.x == -Vectors(l).index.x && Vectors(l).middle.y == -Vectors(l).index.y
      && Vectors(l).ring == Vectors(l).middle && Vectors(l).pinky == Vectors(l).middle
      && Dot(Planar(Vectors(l).index), Planar(Vectors(l).middle)) < 0
      && DrawRule(PlanarHand(Vectors(l)), DefaultThreshold)
      && !CosNegative(Vectors(l).index, Vectors(l).middle)
      && Classify(l, DefaultThreshold) != Draw
  {
    VectorsRealizable(AgainstIndexHand());
    var l :| WellFormed(l) && Vectors(l) == AgainstIndexHand();
    AgainstIndexHandClassified(l);
  }

  /** Every landmark list with those vectors is classified as not DRAW,
      while its (x, y) parts alone would be. */
  lemma AgainstIndexHandClassified(l: seq<Triple>)
    requires |l| >= 21 && Vectors(l) == AgainstIndexHand()
    ensures IndexExtended(Vectors(l), DefaultThreshold)
    ensures DrawRule(PlanarHand(Vectors(l)), DefaultThreshold)
    ensures !CosNegative(Vectors(l).index, Vectors(l).middle)
    ensures Classify(l, DefaultThreshold) != Draw
  {
    AgainstIndexHandRules();
    DrawWins(AgainstIndexHand(), DefaultThreshold);
  }

  /** A hand one pixel across, every palm vector pointing up the image, the
      index finger up and the other fingers down. */
  function AgainstIndexHand(): (v: HandVectors)
    ensures HandIndices(v)
    ensures v.index.x == 0 && v.index.y == -1
    ensures v.middle.x == 0 && v.middle.y == 1 && v.ring == v.middle && v.pinky == v.middle
  {
    HandVectors(
      Triple(5, 0, -1), Triple(9, 0, -1), Triple(13, 0, -1), Triple(17, 0, -1), Triple(4, 0, -1),
      Triple(2, 0, -1), Triple(2, 0, 1), Triple(2, 0, 1), Triple(2, 0, 1), Triple(3, 0, 1))
  }

  /** On that hand the index finger is extended, the (x, y) parts alone meet
      DRAW, and the full vectors do not curl the middle finger against the
      index. */
  lemma AgainstIndexHandRules()
    ensures IndexExtended(AgainstIndexHand(), DefaultThreshold)
    ensures DrawRule(PlanarHand(AgainstIndexHand()), DefaultThreshold)
    ensures !CosNegative(AgainstIndexHand().index, AgainstIndexHand().middle)
  {
    var v, t := AgainstIndexHand(), DefaultThreshold;
    assert IndexExtended(v, t);
    assert DrawRule(PlanarHand(v), t);
  }
}
