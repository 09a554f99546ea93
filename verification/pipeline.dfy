/**
 * `detect_number_plate` (main.py:9-64) and the success test of `main`
 * (main.py:74).
 *
 * The OpenCV preprocessing and contour extraction (main.py:18-26) are not
 * modelled: a decoded image arrives as its grayscale grid together with the
 * contours found in its edge map. The calls that can raise inside the `try`
 * block (drawing, OCR, display) are the environment `Env`.
 */
module Pipeline {
  import opened Wrappers
  import opened Candidates
  import opened Region
  import opened TextCleanup

  /** `cv2.imread` succeeded: the grayscale image and its extracted contours. */
  datatype Decoded = Decoded(gray: Grid, contours: seq<Contour>)

  /**
   * The collaborators of the `try` block: whether `cv2.drawContours` returns
   * normally, Tesseract (`None` when it raises), whether the display calls
   * return normally, and the Unicode database behind `\w`.
   */
  datatype Env = Env(drawOk: bool, ocr: Grid -> Option<string>, showOk: bool, alnum: UnicodeAlnum)

  /** Why no plate text was returned. */
  datatype Failure =
    | LoadError         // main.py:14-16
    | BoundaryNotFound  // main.py:39-41
    | OcrStageError     // main.py:62-64: any exception inside the try block

  datatype Outcome = Plate(text: string) | Failed(reason: Failure)

  /** The stages an invocation goes through, in the order the script runs them. */
  datatype Step = Preprocess | Select | Draw | Crop | Recognize | Clean | Display

  const FullRun: seq<Step> := [Preprocess, Select, Draw, Crop, Recognize, Clean, Display]

  /** What one invocation returns, and the stages it reached. */
  datatype Run = Run(outcome: Outcome, steps: seq<Step>)

  /** The value the Python function returns: the text, or `None` on every failure. */
  function AsPython(o: Outcome): Option<string>
  {
    match o
    case Plate(t) => Some(t)
    case Failed(_) => None
  }

  /** `if number_plate:` in `main`: `None` and the empty string are both false. */
  predicate MainReportsPlate(r: Option<string>)
  {
    r.Some? && r.value != []
  }

  /** The plate boundary chosen for a decoded image. */
  function PlateBoundary(d: Decoded): Option<Contour>
  {
    Boundary(TopCandidates(d.contours))
  }

  /** The whole invocation, stage by stage, with its failure exits. */
  function Detect(image: Option<Decoded>, env: Env): Run
  {
    match image
    case None => Run(Failed(LoadError), [])
    case Some(d) =>
      match PlateBoundary(d)
      case None => Run(Failed(BoundaryNotFound), FullRun[..2])
      case Some(q) =>
        if !env.drawOk then Run(Failed(OcrStageError), FullRun[..3])
        else
          var crop := CropBox(d.gray, q.box);
          match env.ocr(crop)
          case None => Run(Failed(OcrStageError), FullRun[..5])
          case Some(raw) =>
            var text := SubNonWordRuns(env.alnum, raw);
            if !env.showOk then Run(Failed(OcrStageError), FullRun)
            else Run(Plate(Strip(text)), FullRun)
  }

  /**
   * The stages run in the script's order, each at most once. A read failure
   * stops before any stage. `BoundaryNotFound` happens exactly when no top-10
   * candidate has four vertices. OCR is reached only with a boundary. Text is
   * returned exactly when every stage succeeds.
   */
  lemma DetectStages(image: Option<Decoded>, env: Env)
    ensures Detect(image, env).steps <= FullRun
    ensures Detect(image, env).outcome.Plate? <==> Detect(image, env).steps == FullRun && env.showOk
    ensures Detect(image, env).outcome == Failed(LoadError) <==> image.None?
    ensures image.None? ==> Detect(image, env).steps == []
    ensures Detect(image, env).outcome == Failed(BoundaryNotFound) <==>
              image.Some? && forall c :: c in TopCandidates(image.value.contours) ==> !IsQuad(c)
    ensures Recognize in Detect(image, env).steps ==> image.Some? && PlateBoundary(image.value).Some?
    ensures Detect(image, env).outcome.Plate? <==>
              && image.Some?
              && PlateBoundary(image.value).Some?
              && env.drawOk
              && env.ocr(CropBox(image.value.gray, PlateBoundary(image.value).value.box)).Some?
              && env.showOk
  {
  }

  /**
   * `detect_number_plate` as the script runs it: early returns at each
   * failure exit, the selection loop, the OCR call. `steps` records each
   * stage where the method enters it, and `ocrCalls` counts the calls of
   * `env.ocr` the method makes.
   */
  method DetectNumberPlate(image: Option<Decoded>, env: Env)
    returns (plate: Option<string>, ghost steps: seq<Step>, ghost ocrCalls: nat)
    ensures plate == AsPython(Detect(image, env).outcome)
    ensures steps == Detect(image, env).steps
    ensures ocrCalls <= 1
    ensures ocrCalls == 1 <==> Recognize in steps
    ensures ocrCalls == 1 ==> image.Some? && PlateBoundary(image.value).Some?
  {
    ghost var run := Detect(image, env);
    steps, ocrCalls := [], 0;
    if image.None? {
      return None, steps, ocrCalls;
    }
    var d := image.value;
    steps := steps + [Preprocess];
    var candidates := TopCandidates(d.contours);
    var boundary := SelectBoundary(candidates);
    steps := steps + [Select];
    assert boundary == PlateBoundary(d);
    if boundary.None? {
      assert run == Run(Failed(BoundaryNotFound), steps);
      return None, steps, ocrCalls;
    }
    steps := steps + [Draw];
    if !env.drawOk {
      assert run == Run(Failed(OcrStageError), steps);
      return None, steps, ocrCalls;
    }
    var crop := CropBox(d.gray, boundary.value.box);
    steps := steps + [Crop];
    var raw := env.ocr(crop);
    steps, ocrCalls := steps + [Recognize], ocrCalls + 1;
    if raw.None? {
      assert run == Run(Failed(OcrStageError), steps);
      return None, steps, ocrCalls;
    }
    var text := SubNonWordRuns(env.alnum, raw.value);
    steps := steps + [Clean, Display];
    assert steps == run.steps;
    if !env.showOk {
      return None, steps, ocrCalls;
    }
    return Some(Strip(text)), steps, ocrCalls;
  }

  /**
   * A returned plate is the cleaned OCR text of the crop of the selected
   * boundary: exactly the word characters of that text, in order.
   */
  lemma PlateIsCleanedOcrText(image: Option<Decoded>, env: Env)
    ensures Detect(image, env).outcome.Plate? ==>
              && image.Some? && PlateBoundary(image.value).Some?
              && var d := image.value;
                 var raw := env.ocr(CropBox(d.gray, PlateBoundary(d).value.box));
                 && raw.Some?
                 && Detect(image, env).outcome.text == WordChars(env.alnum, raw.value)
                 && IsSubsequence(Detect(image, env).outcome.text, raw.value)
                 && forall k :: 0 <= k < |Detect(image, env).outcome.text| ==>
                      IsWord(env.alnum, Detect(image, env).outcome.text[k])
  {
    if Detect(image, env).outcome.Plate? {
      var d := image.value;
      var raw := env.ocr(CropBox(d.gray, PlateBoundary(d).value.box)).value;
      NormalizeIsWordChars(env.alnum, raw);
    }
  }

  /**
   * `main` reports a plate exactly when a text was returned and the OCR text
   * held at least one word character; an empty result is treated like `None`.
   */
  lemma MainReportsIffWordCharRead(image: Option<Decoded>, env: Env)
    ensures MainReportsPlate(AsPython(Detect(image, env).outcome)) <==>
              && Detect(image, env).outcome.Plate?
              && exists k :: 0 <= k < |env.ocr(CropBox(image.value.gray, PlateBoundary(image.value).value.box)).value|
                             && IsWord(env.alnum, env.ocr(CropBox(image.value.gray, PlateBoundary(image.value).value.box)).value[k])
  {
    var run := Detect(image, env);
    if run.outcome.Plate? {
      PlateIsCleanedOcrText(image, env);
      var raw := env.ocr(CropBox(image.value.gray, PlateBoundary(image.value).value.box)).value;
      WordCharsCounts(env.alnum, raw);
      if exists k :: 0 <= k < |raw| && IsWord(env.alnum, raw[k]) {
        var k :| 0 <= k < |raw| && IsWord(env.alnum, raw[k]);
        assert multiset(raw)[raw[k]] > 0;
        assert multiset(run.outcome.text)[raw[k]] > 0;
      }
    }
  }

  /**
   * The selected boundary is the largest 4-vertex contour of the image, and
   * the first of that area in extraction order; it can only be missed when
   * ten larger non-quadrilateral contours crowd it out.
   */
  lemma BoundaryIsLargestQuad(d: Decoded)
    ensures PlateBoundary(d).Some? ==>
              var q := PlateBoundary(d).value;
              && q in d.contours && IsQuad(q)
              && (forall c :: c in d.contours && IsQuad(c) ==> c.area <= q.area)
              && Boundary(WithArea(d.contours, q.area)) == Some(q)
    ensures PlateBoundary(d).None? && (exists c :: c in d.contours && IsQuad(c)) ==>
              |d.contours| > MaxCandidates
  {
    if PlateBoundary(d).Some? {
      SelectedIsLargestQuad(d.contours);
    } else {
      TopCandidatesSpec(d.contours);
      var top := TopCandidates(d.contours);
      if |d.contours| <= MaxCandidates {
        forall c | c in d.contours
          ensures c in top
        {
          assert multiset(top) == multiset(d.contours) by {
            RankByAreaIsPermutation(d.contours);
            assert top == RankByArea(d.contours);
          }
          assert c in multiset(d.contours);
        }
      }
    }
  }
}
