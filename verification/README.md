# License plate detection — a Dafny model of `detect_number_plate`

This project models the script's own logic in `detect_number_plate`, which finds a licence plate in a photo and reads it. That logic has four parts:

- **Ranking.** The contours found in the edge map are sorted by area, largest first, and only the first ten are kept.
- **Selection.** The kept contours are scanned in order. The first one whose polygon approximation has exactly four vertices becomes the plate boundary. If none has four, the function returns `None`.
- **Crop.** The grayscale image is sliced by the boundary's bounding box, `gray[y:y+h, x:x+w]`.
- **Cleanup.** The text Tesseract reads from the crop is cleaned with `re.sub(r'\W+', '', text)` and then `.strip()`.

Around these parts sit the failure exits: the image cannot be read, no boundary is found, or an exception is raised inside the `try` block. The model also covers the test `main` applies to the result (`if number_plate:`).

Modules:

- `Wrappers` (wrappers.dfy): `Option`, which stands for Python's value-or-`None`.
- `Candidates` (candidates.dfy): a contour reduced to its area, the vertex count of its approximation and its bounding box. Also the stable largest-first ranking (`RankByArea`, `TopCandidates`) and the selection loop (`SelectBoundary`), which is proved equal to the function `Boundary`.
- `Region` (region.dfy): the image as a grid of 8-bit pixels, Python's slice clamping, and the crop.
- `TextCleanup` (text_cleanup.dfy): Python 3's `\w` class, `re.sub` as the removal of maximal non-word runs, its reference meaning `WordChars` (keep the word characters), and `str.strip()`.
- `Pipeline` (pipeline.dfy): one invocation as a function `Detect`, which returns the outcome and the stages reached. There is also the method `DetectNumberPlate`, written with the script's early returns. It is proved to return what `Detect` does and to build the same stage trace, and it counts its own Tesseract calls.

Where the written design and the code disagree, the model follows the code:

- The design says cleanup leaves only `[A-Za-z0-9]`. Python 3's `\w` also keeps `_` and every Unicode letter or digit. `IsWord` models that.
- The design names recognition failures as the only exception exit. In the code, an exception from `drawContours` before the crop is caught by the same `except`. So is one from `imshow`/`waitKey` after OCR has already succeeded. Both give `None` (`Env.drawOk`, `Env.showOk`).
- The design says an empty result is never mistaken for failure. `main` tests `if number_plate:`, so it treats `""` exactly like `None` (`MainReportsIffWordCharRead`).
- The design gives each failure its own kind. The code returns `None` for all of them. The model keeps the reasons apart in `Failure`, and `AsPython` collapses them to `None`.

## Model

| member | source | states |
|---|---|---|
| Candidates.RankByArea | main.py:28 | Python's stable `sorted(contours, key=cv2.contourArea, reverse=True)` as a stable insertion sort; no contract of its own, specified by RankByAreaIsPermutation, RankByAreaIsSorted, RankByAreaIsStable and RankByAreaIsTheStableSort |
| Candidates.TopCandidates | main.py:28 | the ranked list cut by `[:10]`; no contract of its own, specified by TopCandidatesSpec |
| Candidates.RankByAreaIsPermutation | main.py:28 | the sorted list has the same contours as the input, with the same multiplicities and the same length |
| Candidates.RankByAreaIsSorted | main.py:28 | the sorted list is non-increasing in area (`reverse=True`) |
| Candidates.RankByAreaIsStable | main.py:28 | for every area, the contours of that area appear in their extraction order (Python's sort is stable) |
| Candidates.RankByAreaIsTheStableSort | main.py:28 | any non-increasing list with the input's per-area orders is exactly `RankByArea`, so the model fixes the result of `sorted(..., reverse=True)` uniquely |
| Candidates.SortedByAreaIsUnique | main.py:28 | two largest-first lists with the same per-area orders are equal |
| Candidates.TopCandidatesSpec | main.py:28 | `[:10]` keeps `min(10, n)` contours, non-increasing, all taken from the input; every dropped contour's area is at most every kept one's; per area, the kept contours are a prefix of that area's contours in extraction order |
| Candidates.Boundary | main.py:30-41 | the contour the loop selects, or `None`; no contract of its own, specified by FirstQuad's contract and equal to SelectBoundary's result |
| Candidates.FirstQuad | main.py:31-37 | the index returned holds a 4-vertex contour and no earlier index does; `None` exactly when no candidate has 4 vertices |
| Candidates.SelectBoundary | main.py:30-41 | the loop with `break` returns the first 4-vertex candidate, and `None` iff there is none; it equals `Boundary` |
| Candidates.BoundaryOfPrefix | main.py:30-37 | a 4-vertex contour found first in a prefix is the one found first in the whole list |
| Candidates.BoundaryOfWithArea | main.py:30-37 | the first 4-vertex contour is also the first 4-vertex contour among those of its own area |
| Candidates.SelectedIsLargestQuad | main.py:28-37 | the selected boundary comes from the input, has 4 vertices and the largest area of all 4-vertex contours, and is the earliest extracted 4-vertex contour of that area |
| Region.Slice | main.py:48 | `s[start:stop]` has at most `stop - start` elements, exactly that many when the bounds lie inside, and element `k` is `s[start + k]` |
| Region.CropBox | main.py:47-48 | the crop has at most `h` rows of at most `w` pixels, and every pixel is the source pixel `(y+i, x+j)` inside the image |
| Region.CropInsideImage | main.py:47-48 | for a box inside a rectangular image, the crop has exactly `h` rows of `w` pixels, with pixel `(i, j)` equal to `gray[y+i][x+j]` |
| Region.CropIsRect | main.py:48 | the crop of a rectangular image is rectangular, and its size is the box clamped to the image |
| Region.CropWholeImage | main.py:48 | a box covering the whole image returns the image unchanged |
| TextCleanup.IsWord | main.py:53 | no whitespace character is a `\w` character |
| TextCleanup.SubNonWordRuns | main.py:53 | `re.sub(r'\W+', '', text)` as the greedy removal of maximal non-word runs; no contract of its own, specified by SubNonWordRunsIsWordChars |
| TextCleanup.WordChars | main.py:53 | the reference meaning of the cleanup, keeping the word characters; no contract of its own, specified by WordCharsAreWord, WordCharsIsSubsequence, WordCharsCounts and WordCharsOfWordString |
| TextCleanup.NonWordRun | main.py:53 | the greedy `\W+` match at the front covers only non-word characters and stops at a word character or at the end |
| TextCleanup.SubNonWordRunsIsWordChars | main.py:53 | removing each maximal `\W+` run is the same as deleting every non-word character |
| TextCleanup.WordCharsAreWord | main.py:53 | the cleaned text holds only word characters |
| TextCleanup.WordCharsIsSubsequence | main.py:53 | the cleaned text is a subsequence of the raw text |
| TextCleanup.WordCharsCounts | main.py:53 | every word character occurs as often as in the raw text; every other character does not occur |
| TextCleanup.WordCharsOfWordString | main.py:53 | a string of word characters is left unchanged |
| TextCleanup.StripLeading | main.py:60 | the result is a suffix, everything removed is whitespace, and it does not start with whitespace |
| TextCleanup.StripTrailing | main.py:60 | the result is a prefix, everything removed is whitespace, and it does not end with whitespace |
| TextCleanup.Strip | main.py:60 | `str.strip()` as StripTrailing after StripLeading; no contract of its own, specified by those two contracts and StripWithoutWhitespace |
| TextCleanup.StripWithoutWhitespace | main.py:60 | `strip()` leaves a string without whitespace unchanged |
| TextCleanup.Normalize | main.py:53-60 | `re.sub` followed by `strip()`; no contract of its own, specified by NormalizeIsWordChars, NormalizeIsIdempotent and NormalizeExample |
| TextCleanup.NormalizeIsWordChars | main.py:53-60 | `re.sub` followed by `strip()` equals keeping the word characters; the result holds only word characters and is a subsequence of the raw text, so the `strip()` removes nothing |
| TextCleanup.NormalizeIsIdempotent | main.py:53-60 | cleaning cleaned text changes nothing |
| TextCleanup.NormalizeExample | main.py:50-60 | the raw read `"AB 12-CD\n\f"` cleans to `"AB12CD"`, whatever the Unicode database |
| Pipeline.PlateBoundary | main.py:28-41 | the boundary chosen for a decoded image (ranking, then selection); no contract of its own, specified by BoundaryIsLargestQuad and Detect |
| Pipeline.AsPython | main.py:14-64 | the Python return value: the text on success, `None` at each of the failure exits (l.16, l.41, l.64); no contract of its own, used by DetectNumberPlate and MainReportsIffWordCharRead |
| Pipeline.MainReportsPlate | main.py:74 | `if number_plate:`, where `None` and `""` are both false; no contract of its own, specified by MainReportsIffWordCharRead |
| Pipeline.Detect | main.py:12-64 | one invocation as a value: the outcome and the stages reached; no contract of its own, specified by DetectStages |
| Pipeline.DetectStages | main.py:12-64 | stages run in order, each at most once; a read failure returns `LoadError` with no stage reached; `BoundaryNotFound` happens iff no top-10 candidate has 4 vertices; OCR is reached only with a boundary; text is returned iff loading, selection, drawing, OCR and display all succeed |
| Pipeline.DetectNumberPlate | main.py:9-64 | the early-return implementation returns what Python returns for `Detect`: the text, or `None` on every failure. The trace it builds stage by stage is `Detect`'s trace. It calls `env.ocr` at most once, and only after a boundary was selected |
| Pipeline.PlateIsCleanedOcrText | main.py:47-60 | a returned plate is exactly the word characters of the OCR text of the crop of the selected boundary, in order, and only word characters |
| Pipeline.MainReportsIffWordCharRead | main.py:72-77 | `main` reports a plate iff a text was returned and the OCR text held at least one word character; an empty result counts as failure |
| Pipeline.BoundaryIsLargestQuad | main.py:28-41 | the boundary is the largest 4-vertex contour of the image, and the first of its area; a 4-vertex contour can be missed only when there are more than 10 contours |

## Left out

- OpenCV preprocessing (`cvtColor`, `GaussianBlur`, `adaptiveThreshold`, `Canny`, `findContours`; main.py:18-26) is foreign pixel processing. A decoded image is given as its grayscale grid and its contour list. An exception raised by these calls, which is outside the `try`, is not modelled.
- Contour geometry (`contourArea`, `arcLength`, `approxPolyDP` with epsilon `0.018 * arcLength`, `boundingRect`; main.py:28, 32-33, 47) is foreign floating-point code. Each contour carries its area, the vertex count of its approximation and its bounding box as given data. Areas are integers rather than floats; only their order matters.
- Tesseract (main.py:50) and its executable path (main.py:7) are an external process. `Env.ocr` is an arbitrary function that may fail. The `--psm 8` mode is part of that black box.
- The Unicode character database behind `\w` for non-ASCII characters is the parameter `alnum`. Only its agreement with whitespace is fixed.
- Display and console output (`drawContours` annotating `img`, `imshow`, `waitKey`, `destroyAllWindows`, `print`; main.py:10, 44, 56-58, 75-77) are side effects. Only whether they raise is modelled (`Env.drawOk`, `Env.showOk`). The annotation does not affect the text.
- `main`'s `image_path` (main.py:67-72) is never assigned. The call at main.py:72 would raise `NameError`, so only the truthiness test of its result is modelled.
- Region.Slice: negative indices are not modelled, because `boundingRect` never yields a negative coordinate or size.
- Determinism across runs holds because every member is a function of its inputs. No separate statement is made.
