# Hand-gesture classification and session state

A verified Dafny model of the gesture engine of the Aerial Digital Canvas
hand tracker (`hands.py`). The tracker takes a hand's 21 landmarks per frame.
Each landmark is a triple `[idx, x, y]` of anatomical index and pixel
coordinates. From these it names the interaction mode (DRAW, SHAPE_LAUNCH,
SCREENSHOT, HOVER, ERASE, MOVE, MATH_LAUNCH) and builds a per-frame result
dictionary. The dictionary is enriched with fingertip positions, finger
distances and the index fingertip's shift since the previous frame.

- `geometry.dfy`, module `Geometry`: landmarks and vectors as integer
  triples, `vectorize`, the dot product and the squared magnitude.
  `cos_angle` is modelled as `Cosine`, which is given the two magnitudes
  (square roots) of its vectors. Every comparison the classifier makes on a
  cosine has an exact integer form:
  - `CosNegative`: `cos < 0` iff `dot < 0`;
  - `CosAbove`: `cos > t` iff `dot > 0 && dot² > t²·|u|²·|v|²` for
    `t >= 0`, and iff both vectors are non-zero and
    `dot >= 0 || dot² < t²·|u|²·|v|²` for `t < 0`.

  Two lemmas prove these forms equal to the real-valued comparisons on
  non-zero vectors. On a zero vector `cos_angle` divides 0 by 0, which is
  NaN in the source, and every comparison with NaN is false. Both integer
  forms are false there too: `dot < 0` and `dot > 0` fail on a zero dot
  product, and the `t < 0` form asks for non-zero vectors outright.
- `classifier.dfy`, module `Classifier`: `detect_gesture` as the function
  `Classify`. It computes the ten palm and finger vectors (`Vectors`), then
  runs the chain of rules in the source's order (`Decide`). The model also
  holds the same rules as an explicit ordered table (`Cascade`) read by a
  first-match interpreter (`FirstMatch`), and proves the two agree. Lemmas
  cover:
  - precedence: what each label means once earlier rules are accounted for;
  - the HOVER fallback when the index finger is not extended;
  - non-degeneracy: no vector of a well-formed hand is zero, so no cosine
    divides by zero;
  - coverage: each rule of the chain is the first to hold on some
    well-formed hand, and on another no rule holds at all.
- `session.dfy`, module `Session`: the class `HandDetector` with the
  `prevPosition` field and the method `DetermineGesture`. The method is
  specified by the pure functions `PostOf` (the result dictionary, keyed by
  the source's strings) and `NextPosition` (the new previous position).
  Lemmas about these functions cover single frames and runs of frames.

Choices the code fixes that a reader might expect otherwise:
- `vectorize` subtracts whole `[idx, x, y]` triples, so vectors have three
  components. Every vector carries the index difference as its first
  component: 5, 9, 13, 17 and 4 for the palm vectors; 2, 2, 2, 2 and 3 for
  the finger vectors. The model keeps three components.
  `Classifier.IndexComponentMatters` shows a small hand whose (x, y) parts
  alone would be DRAW while the three-component vectors are not.
- The code has no zero-length guard before dividing by the magnitudes.
  `Classifier.VectorsNonDegenerate` shows that a well-formed landmark list
  (`landmarks[i][0] == i`, as `enumerate` builds it) never produces a zero
  vector, and `Geometry.ZeroVectorComparesFalse` gives the NaN outcome for
  lists that are not well-formed.
- The shift convention is `(Δrow, Δcol) = (y - prev_y, x - prev_x)`.
  `prev_position` holds `(y, x)`, as the unpacking `_, c, r = idx_finger`
  fixes it. It is never reset when the hand disappears.

## Model

| member | source | states |
|---|---|---|
| Geometry.Vectorize | hands.py:99 | `vectorize(u, v)` is the componentwise difference over all three components: adding it back to `u` gives `v`, and it is zero exactly when `u == v` |
| Geometry.Norm2 | hands.py:116 | the squared magnitude is non-negative and zero only for the zero vector |
| Geometry.CosineNegative | hands.py:116-118 | `cos_angle(u, v) < 0` holds exactly when the integer dot product is negative, for the exact magnitudes |
| Geometry.CosineAbove | hands.py:116-118 | for every real threshold `t`, `cos_angle(u, v) > t` holds exactly when the integer comparison `CosAbove` holds |
| Geometry.ZeroVectorComparesFalse | hands.py:116-118 | with a zero vector the cosine is 0/0 (NaN), and neither `cos < 0` nor `cos > t` holds, for any `t` |
| Classifier.VectorsNonDegenerate | hands.py:103-114 | on a well-formed hand the ten vectors have first components 5, 9, 13, 17, 4, 2, 2, 2, 2, 3, so none is zero and no cosine divides by zero |
| Classifier.VectorsRealizable | hands.py:103-114 | conversely, every choice of vectors with those first components comes from some well-formed hand |
| Classifier.FirstMatchEarliest | hands.py:123-177 | in a first-match table the earliest rule that holds decides, whatever later rules say |
| Classifier.FirstMatchFallback | hands.py:176-177 | when no rule of the table holds, the result is HOVER |
| Classifier.FirstMatchWitness | hands.py:123-177 | the result is the label of a rule that holds with no earlier rule holding, or HOVER with no rule holding |
| Classifier.DecideIsFirstMatch | hands.py:123-177 | the chain of `if ... return` equals the ordered rule table read first-match |
| Classifier.ClassifyIsFirstMatch | hands.py:123-177 | every result of `detect_gesture` is the label of the first rule of the cascade that holds, or the fallback HOVER |
| Classifier.DrawWins | hands.py:124-128 | DRAW is returned exactly when rule 1's four conjuncts hold, regardless of later rules |
| Classifier.IndexCurledHovers | hands.py:124-177 | if `cos(palm_index, index) <= threshhold`, every rule fails and the result is HOVER |
| Classifier.ShapeLaunchExactly | hands.py:130-135 | SHAPE_LAUNCH exactly when rule 2 holds and rule 1 does not |
| Classifier.ScreenshotExactly | hands.py:137-141 | SCREENSHOT exactly when rule 3 holds and rule 2 does not (rule 1 cannot hold beside it) |
| Classifier.HoverExactly | hands.py:144-177 | HOVER exactly when rule 4 holds with rules 1-3 failing, or no rule holds at all |
| Classifier.EraseExactly | hands.py:152-156 | ERASE exactly when rule 5 holds and rule 2 does not (rules 1, 3, 4 exclude it) |
| Classifier.MoveExactly | hands.py:159-163 | MOVE exactly when rule 6 holds and rules 1, 2, 4 do not; a MOVE hand never has the pinky curled against the index |
| Classifier.MathLaunchExactly | hands.py:170-174 | MATH_LAUNCH exactly when rule 7 holds and rules 2-4 do not; then the middle finger's dot with the index is positive but not above the 0.80 bound |
| Classifier.MathLaunchCosineBand | hands.py:170-174 | MATH_LAUNCH implies `0 < cos(index, middle) <= 0.80` for the real cosine |
| Classifier.EveryRuleFires | hands.py:123-174 | no rule is dead: for each of the seven rules some well-formed hand at the default threshold 0.70 fails every earlier rule, meets this one and is classified with its label |
| Classifier.FallbackOccurs | hands.py:176-177 | the fallback is reachable: on some well-formed hand no rule holds and the result is HOVER |
| Classifier.EveryGestureOccurs | hands.py:123-177 | each of the seven labels is returned on some well-formed hand at the default threshold, HOVER by its own rule |
| Classifier.IndexComponentMatters | hands.py:99 | on some well-formed hand the index finger's (x, y) part is non-zero and the middle, ring and pinky (x, y) parts point exactly against it, so the (x, y) parts alone meet every conjunct of DRAW; with the index component the middle finger is not curled against the index and the result is not DRAW |
| Session.DistanceSquared | hands.py:199 | the squared Euclidean distance of the (x, y) parts is non-negative and zero exactly when the two points coincide |
| Session.HandDetector.constructor | hands.py:36 | a new detector has no previous position |
| Session.HandDetector.DetermineGesture | hands.py:179-229 | the returned dictionary is `PostOf(old prev_position, landmarks)` and the new `prev_position` is `NextPosition(old prev_position, landmarks)` |
| Session.NoHandKeepsPosition | hands.py:188-192 | an empty landmark list gives `{}` and leaves `prev_position` unchanged |
| Session.PostKeys | hands.py:195-227 | with a hand, the keys are exactly `gesture`, `idx_fing_tip` and the gesture's extras; `idx_fing_tip` is landmark 8; `prev_position` becomes `(y8, x8)` whatever the gesture |
| Session.EraseFields | hands.py:203-207 | ERASE adds `mid_fing_tip` = landmark 12 and `idx_mid_radius` from landmarks 8 and 12 |
| Session.MoveFields | hands.py:210-222 | MOVE adds `idx_pinky_radius` from landmarks 8 and 20 and `shift = (y8 - prev_row, x8 - prev_col)`, `(0, 0)` when there was no previous position |
| Session.EmptyFramesKeepPosition | hands.py:188-192 | any run of frames without a hand leaves the previous position as it was |
| Session.ShiftSinceLastHand | hands.py:215-227 | a MOVE frame's shift is the index fingertip's displacement since the last frame with a hand, however many empty frames came between |

## Left out

- `KalmanFilter` and the module-level `kf_tracker` (hands.py:5-18) are not part of this model. They are OpenCV's floating-point Kalman filter, a foreign call.
- `detect_hands` (hands.py:38-62) is not modelled: colour conversion, MediaPipe inference, drawing and the smoothed cursor circle are I/O and foreign code. `DetermineGesture` takes the landmark list directly instead of a frame and a background.
- `detect_landmarks` (hands.py:65-83) is not modelled: it scales floating detector output to pixels. Only its output shape is kept, in two places. `Detected` is the precondition of the session: no landmarks, or at least 21. `WellFormed` is the hypothesis of the non-degeneracy lemmas: `landmarks[i][0] == i`.
- The `debug` branch of `detect_gesture` (hands.py:120-121) is not modelled: it returns a raw floating cosine for calibration instead of a label.
- The unused unpacking of landmark 5 (hands.py:97) is not modelled; it only demands the length the model already requires.
- `main` (hands.py:230-256) is not modelled: it is the camera loop, window display and key handling.
- The constructor arguments other than the previous position (hands.py:26-34) are not modelled: they are MediaPipe configuration.
- Floating point is not modelled: cosines and thresholds are exact reals (0.70, 0.80 and 0.90 as decimal values), so a comparison within rounding error of a threshold may differ from the floating result. Integer arithmetic is unbounded; numpy's 64-bit dot product cannot overflow on pixel coordinates.
- Session.DistanceSquared: the radius values `idx_mid_radius` and `idx_pinky_radius` are the squares of the Euclidean distances the source stores, because Dafny has no square root.
- Geometry.CosineAbove: magnitudes are parameters with `m * m == |u|²` rather than computed square roots.
- The classifier returns a value of the `Gesture` datatype instead of a string, so "always one of the seven labels" holds by construction. The result dictionary keeps the source's string keys.
