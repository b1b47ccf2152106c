# Leaf Severity Calculator — a Dafny model

The Leaf Severity Calculator measures how much of a barley leaf is diseased.
The leaves are photographed on white paper. The program then works in four
steps:

- It separates leaf from paper with a threshold `ub` on the blue byte: a
  pixel is leaf when blue ≤ `ub`.
- It computes the normalized green–red difference index
  NGRDI = (g − r)/(g + r) for every pixel.
- It splits the leaf pixels into diseased (index ≤ `ui`) and healthy
  (index > `ui`).
- It reports severity as diseased / leaf and paints a colour overlay on a
  copy of the image.

The repository wraps this pipeline in four user-interface front-ends:

- `main.py` uses Tk.
- `v0.py` and `app.py` use Toga.
- `analisis.py` uses Flet.

The front-ends keep the same controller state (`img`, `img_original`,
`mascara_hojas`, `severidad`). They differ in their guards and in the order
of their calls. This project models the pipeline once, and each front-end as
a class over that state.

Modules:

- `Pixels` (pixels.dfy): an 8-bit pixel stored as three bytes in memory
  order, read as BGR (OpenCV) or RGB (PIL, and `cvtColor`). It holds the
  per-pixel index, modelled as an exact real. The `where=(g+r)!=0` guard is
  evaluated on uint8 values, so the sum wraps modulo 256, and the index is
  0.0 when g + r is 0 or 256. It also holds Python's `int()` on a slider
  value.
- `Grids` (grids.dfy): rectangular grids and boolean masks, and `np.sum` as
  `Count`. It also models numpy broadcasting of a stored mask against an
  image. A mask from an earlier image either stretches, when a dimension is
  1, or raises.
- `Pipeline` (pipeline.dfy): the whole-array steps as functions, with
  lemmas:
  - the leaf and background masks
  - the index map
  - the classification
  - masked painting and the two- and three-colour views
  - the preview and the segmented image
  - severity, as numpy computes it (`nan` for 0/0, `inf` for n/0) and as
    app.py guards and scales it
- `Canvas` (canvas.dfy): `img.copy()` as a fresh `array2`, and
  `copy[mask] = colour` as an in-place loop over it. Each method is proved
  against the `Pipeline` function it implements.
- `Advisor` (advisor.dfy): the visible steps of `sugerir_umbrales`. It
  selects the index values under the leaf mask (the data handed to the
  clustering) and takes the mean of the two smallest sorted cluster centres.
- `FileNames` (names.dfy): the file name recorded for the report.
- The four front-ends:
  - `MainTk` (main_tk.dfy)
  - `TogaV0` (v0_toga.dfy)
  - `TogaApp` (app_toga.dfy)
  - `FletAnalisis` (analisis_flet.dfy)

  Each is a `Controller` class whose fields are the program's attributes.
  The callbacks are methods, and their `ensures` state the whole new state.
  An `Outcome` (outcomes.dfy) records what a callback did:
  - it returned early at a guard (`Skipped`);
  - it raised (`Raised`), keeping whatever it had assigned before;
  - it ran to the end (`Done`).

Differences between the front-ends that the contracts make explicit:

- main.py keeps the previous image's mask when a new image is loaded. A
  mask that no longer fits the image raises when it is broadcast.
- main.py stores no severity until the first classification.
- v0.py replays the whole pipeline at `ub_inicial = 180` and `ui_inicial`
  on every load. Its Background OK always uses 180: it reads `.value` from
  the Box that holds the slider, not from the slider.
- app.py recomputes the mask on every move of the background slider. It
  paints in three colours and reports 100·diseased/leaf, or 0 when there is
  no leaf.
- analisis.py never replaces its 1 × 1 `True` mask. Every pixel therefore
  counts as leaf, and its "severity" is a count of pixels, not a fraction.

The module docstring of main.py (lines 25 and 30) describes two things
differently from the code:

- It calls pixels above `Ui` diseased. The code marks `index <= ui`
  diseased, at main.py:244.
- It says the background is set to NaN. The code paints it `[0, 0, 0]`, at
  main.py:264.

The model follows the code in both cases.

## Model

| member | source | states |
|---|---|---|
| Pixels.Swap | main.py:167 | BGR→RGB conversion keeps the red, green and blue bytes of each pixel and only swaps their order |
| Pixels.Ngrdi | main.py:243 | the index times g + r is g − r whenever the uint8 sum g + r is not 0 modulo 256; that sum wraps exactly when g + r is 0 or 256, and then the index is 0.0 |
| Pixels.NgrdiBounds | main.py:243 | every index value lies in [−1, 1] |
| Pixels.NgrdiSign | main.py:243 | the index is 0 exactly when g = r or g + r ∈ {0, 256}; it is positive exactly when g > r and g + r ≠ 256 |
| Pixels.NgrdiWrapExample | main.py:243 | green 56, red 200 gives 0.0, while the true ratio is −0.5625 |
| Pixels.TruncToInt | main.py:226 | `int(float(v))` truncates toward zero: floor for v ≥ 0, ceiling for v < 0 |
| Grids.Count | main.py:251 | `np.sum` of a mask: the number of its true cells, at most h·w for an h × w mask |
| Grids.Fits | main.py:244-248 | when the broadcast `&` and the boolean indexing go through: a mask of the image's own shape always fits, a 1 × 1 mask fits any image, and a fitting mask is a non-empty rectangular grid |
| Grids.CountComplement | main.py:264 | two h × w masks that differ in every cell count h·w cells together |
| Grids.CountMono | main.py:251 | a mask that is pointwise contained in another counts no more |
| Grids.CountSplit | main.py:251 | two disjoint masks whose union is a third count, together, exactly the third |
| Grids.CountZero | main.py:251 | a mask counts 0 exactly when it has no true cell |
| Grids.Expand | main.py:244-245 | broadcasting a mask that fits an h × w image gives an h × w mask |
| Grids.ExpandSameShape | main.py:244-245 | broadcasting a mask against its own shape leaves it unchanged |
| Grids.ExpandCountZero | main.py:244-251 | broadcasting an empty mask gives an empty mask |
| Grids.ExpandUnit | analisis.py:12 | the 1 × 1 `True` mask broadcasts to the all-true mask of any shape |
| Pipeline.ToRgb | main.py:167 | `cvtColor(BGR2RGB)` keeps the image's shape |
| Pipeline.IndexMapOf | main.py:243 | the index map has the image's shape |
| Pipeline.IndexMapBounds | main.py:243 | every cell of the index map lies in [−1, 1] |
| Pipeline.LeafMask | main.py:262 | the leaf mask `b <= ub` has the image's shape |
| Pipeline.BackgroundMask | main.py:230 | the preview mask `b > ub` has the image's shape |
| Pipeline.Not | main.py:264 | `~mask` has the mask's shape and differs from it in every cell |
| Pipeline.NotInvolutive | main.py:264 | complementing `~mask` again gives the mask back |
| Pipeline.NotCount | main.py:264 | a mask and `~mask` count, together, every cell of the image |
| Pipeline.BackgroundIsComplement | main.py:230-262 | the pixels the preview marks (`b > ub`) are exactly the complement of the leaf mask set on OK (`b <= ub`) |
| Pipeline.LeafCountMonotone | main.py:262 | a larger `ub` never gives fewer leaf pixels |
| Pipeline.Classify | main.py:244-245 | diseased and healthy are disjoint; their union is exactly the leaf mask; diseased pixels have index ≤ ui and healthy ones index > ui |
| Pipeline.ClassificationCounts | main.py:244-251 | the diseased and healthy counts add up to the leaf count |
| Pipeline.DiseasedCountMonotone | main.py:244 | a larger `ui` never gives fewer diseased pixels |
| Pipeline.Paint | main.py:247-249 | a masked assignment keeps the image's shape |
| Pipeline.PaintCommutes | app.py:115-117 | masked assignments with disjoint masks can be done in either order |
| Pipeline.TwoColourView | main.py:247-249 | the two-colour result keeps the image's shape |
| Pipeline.TwoColourViewPixels | main.py:247-249 | in the result, diseased pixels are [0, 0, 255], healthy ones [0, 255, 0], and every non-leaf pixel keeps its value from `self.img` |
| Pipeline.ThreeColourView | app.py:114-117 | the three-colour result keeps the image's shape |
| Pipeline.ThreeColourViewPixels | app.py:114-117 | every result pixel is exactly one of [255, 0, 0] (diseased), [0, 255, 0] (healthy) or [0, 0, 0] (background), whatever its colour was |
| Pipeline.ThreeColourOrderIrrelevant | app.py:115-117 | painting background, diseased and healthy in any of the orders tried gives the same image |
| Pipeline.Preview | main.py:229-232 | the preview is `self.img` with [255, 0, 0] exactly where the blue byte of `img_original` exceeds `ub` |
| Pipeline.Segmented | main.py:263-265 | after Background OK, `self.img` holds each leaf pixel converted to RGB and [0, 0, 0] everywhere else |
| Pipeline.ClassifyBroadcast | main.py:244-245 | the classification against a stored mask, broadcast to the image, has the image's shape |
| Pipeline.ClassifyBroadcastIsExpand | main.py:244-245 | whatever the stored mask's shape, the classification equals classifying against the mask numpy broadcasts |
| Pipeline.SegmentedViewPixels | main.py:262-274 | after Background OK, the view is black off the leaf, [0, 0, 255] on diseased and [0, 255, 0] on healthy leaf pixels |
| Pipeline.Divide | main.py:251 | numpy division of counts: the exact quotient for d > 0, `nan` for 0/0, `inf` for n/0 |
| Pipeline.SeverityBounds | main.py:251 | the unguarded severity is `nan` exactly when the leaf mask is empty, and otherwise lies in [0, 1] |
| Pipeline.SeverityMonotone | main.py:251 | for a fixed non-empty mask, the severity never decreases as `ui` grows |
| Pipeline.PercentSeverity | app.py:122 | 0 when the leaf count is 0, otherwise p·leaf = 100·diseased |
| Pipeline.PercentSeverityBounds | app.py:120-122 | the guarded percentage lies in [0, 100] |
| Pipeline.PercentSeverityMonotone | app.py:120-122 | the guarded percentage never decreases as `ui` grows |
| Pipeline.SegmentationResult | main.py:257-274 | after Background OK at `ub` and a classification at `ui`, the severity is `nan` exactly when no pixel is leaf, and otherwise lies in [0, 1]; the view has only black, [0, 255, 0] and [0, 0, 255] |
| Canvas.Contents | main.py:247 | an array's contents have its dimensions |
| Canvas.Copy | main.py:247 | `img.copy()` is a fresh array holding the image |
| Canvas.PaintWhere | main.py:248 | `a[mask] = colour` in place: masked cells become the colour, every other cell keeps its value |
| Canvas.PaintTwoColour | main.py:247-249 | a copy painted diseased then healthy is the two-colour view |
| Canvas.PaintThreeColour | app.py:114-117 | a copy painted diseased, healthy, then background is the three-colour view |
| Canvas.PaintPreview | main.py:231-232 | a copy painted where `b > ub` is the preview |
| Canvas.PaintSegmented | main.py:263-265 | a copy of `img_original` blacked out off the leaf, then converted to RGB, is the segmented image |
| Advisor.RowSelect | main.py:152 | `values[mask]` on one row has one element per true cell, each taken from a true cell, and the value of true cell k sits at the number of true cells before k |
| Advisor.Select | main.py:152 | `ngrdi[mascara_hojas]` has one value per leaf pixel, each the index of some leaf pixel |
| Advisor.SelectAt | main.py:152 | the index of leaf pixel (i, j) sits in `ngrdi[mascara_hojas]` at the number of leaf pixels in the rows above plus those to its left in row i (row-major order) |
| Advisor.ClusterInput | main.py:146-152 | the data given to the clustering are the index values of the pixels with `b <= ub`, one per pixel in row-major order, each in [−1, 1] |
| Advisor.Insert | main.py:157 | inserting into a sorted sequence keeps it sorted and adds exactly that element |
| Advisor.Sort | main.py:157 | `clu_cent.sort()` gives a sorted permutation of the centres |
| Advisor.MeanOfTwoSmallest | main.py:156-158 | the mean of the two smallest centres is at least one centre, and at most one centre lies strictly below it |
| Advisor.SuggestIndexThreshold | main.py:156-158 | the suggested `ui` is at least some centre; no two centres lie below it; it lies in [−1, 1] when the centres do |
| FileNames.BaseName | main.py:165 | `path.split("/")[-1]`: the recorded name is no longer than the path and holds no '/' |
| FileNames.BaseNameIsLastSegment | main.py:165 | the recorded name holds no '/', is a suffix of the path, and is preceded by '/' when it is shorter than the path |
| MainTk.Controller.constructor | main.py:63-68 | no image, no original, no mask, empty name, no severity attribute; the Disease slider is in state normal |
| MainTk.Controller.LoadImage | main.py:162-167 | a cancelled dialog changes nothing. Otherwise the name and `img_original` are replaced; a failed decode raises in `cvtColor` and keeps `img`; a successful one sets `img` to the RGB image. The mask and the severity are kept |
| MainTk.Controller.UpdateBackgroundThreshold | main.py:224-228 | as written: nothing while no image is shown; otherwise always AttributeError on `entry_umbral_b` |
| MainTk.Controller.UpdateBackgroundThresholdIntended | main.py:224-233 | the preview of `self.img` at `int(float(value))`; an error when `img_original` is None; nothing changes |
| MainTk.Controller.UpdateIndexThreshold | main.py:237-255 | skipped while there is no mask or the slider is disabled. Otherwise it raises when `img_original` is None or the stored mask does not broadcast, storing nothing. Otherwise the result is the two-colour view of the broadcast classification and the severity becomes diseased/leaf (unguarded) |
| MainTk.Controller.FinishBackground | main.py:257-274 | Background OK: the mask becomes `b <= ub` and `img` the segmented image, the slider is enabled, and the classification runs at `ui_inicial`, not at the slider's value. Its severity is stored and its view returned; with no image nothing changes |
| MainTk.Controller.SegmentBackground | main.py:259-269 | the mask becomes `b <= ub`, `img` the segmented image, and the Disease slider is enabled |
| MainTk.Controller.FinishDisease | main.py:275-277 | Disease OK reports the name and the severity, and raises AttributeError while no classification has run |
| TogaV0.Controller.constructor | v0.py:13-19 | no image and no mask; `severidad` starts at 0 |
| TogaV0.Controller.UpdateBackgroundThreshold | v0.py:113-121 | the preview of `self.img` at `int(float(value))` on a copy; skipped while no image is shown |
| TogaV0.Controller.UpdateIndexThreshold | v0.py:123-139 | guarded by the mask alone. It raises when `img_original` is None or the mask does not broadcast. Otherwise it gives the two-colour view and the unguarded severity |
| TogaV0.Controller.FinishBackground | v0.py:141-153 | OK under "Fondo" always uses `ub_inicial`, 180, whatever the slider shows. It sets the mask and the segmented image and stores the severity at `ui_inicial` |
| TogaV0.Controller.SegmentBackground | v0.py:143-150 | the mask becomes `b <= ub` and `img` the segmented image |
| TogaV0.Controller.FinishDisease | v0.py:154-156 | the report carries the name and the current severity, 0 before any classification |
| TogaV0.Controller.LoadImage | v0.py:68-97 | no file chosen: nothing changes. A failed decode sets the name, clears `img_original` and reports a ValueError, keeping `img`, the mask and the severity. A successful one leaves the mask `b <= 180` and the segmented image, and reports the severity at `ui_inicial`, replacing any earlier mask |
| TogaV0.Controller.Replay | v0.py:85-93 | the pipeline replayed on load leaves the mask `b <= 180`, the segmented image and the severity at `ui_inicial`, and reports that severity |
| TogaV0.Controller.ReplayDisease | v0.py:91-93 | with the mask of the current image in place, classifying again at `ui_inicial` stores the severity Background OK computed, and the report carries it |
| TogaApp.Controller.constructor | app.py:10-54 | none of `original_array`, `mascara_hojas`, `severidad`, `imagen_procesada`, `nombre_archivo` exists |
| TogaApp.Controller.UpdateBackgroundThreshold | app.py:88-97 | without an array: AttributeError, nothing stored. Otherwise the mask becomes `blue <= int(value)`, blue being channel 2 of the RGB array, and the classification runs at once |
| TogaApp.Controller.UpdateIndexThreshold | app.py:99-126 | without a mask: AttributeError. Otherwise the three-colour view is stored and shown, the guarded percentage is stored, and `original_array` is untouched |
| TogaApp.Controller.LoadImage | app.py:56-86 | no path: nothing changes. A path sets the name; an undecodable file is reported and changes nothing else. A decoded array replaces the old one, and the mask, the severity and the stored `imagen_procesada` are recomputed from it |
| TogaApp.ClassificationResult | app.py:110-122 | after a slider move the percentage lies in [0, 100], and is 0 without leaf pixels; each result pixel is black where blue > ub, else [255, 0, 0] or [0, 255, 0] by its index |
| FletAnalisis.Controller.constructor | analisis.py:10-15 | no image; the mask is the 1 × 1 `True` array |
| FletAnalisis.Controller.UpdateBackgroundThreshold | analisis.py:68-75 | only a preview at `int(value)`; nothing is stored and the mask is not touched |
| FletAnalisis.Controller.UpdateIndexThreshold | analisis.py:77-93 | skipped while no image is shown. Otherwise the view of every pixel classified against the broadcast 1 × 1 mask, and a severity equal to the diseased count |
| FletAnalisis.Controller.ProcessImage | analisis.py:43-58 | no file: nothing changes. A failed decode clears `img_original` and keeps `img`. A successful one sets `img`, previews at 180 and classifies at the disease slider's value |
| FletAnalisis.UnitMaskFits | analisis.py:12 | the 1 × 1 mask broadcasts against every image and counts 1 |
| FletAnalisis.EveryPixelIsLeaf | analisis.py:82-87 | every pixel is diseased exactly when its index is ≤ ui and healthy otherwise; the view holds only [0, 0, 255] and [0, 255, 0] |
| FletAnalisis.ClassifiedPixelCount | analisis.py:82-89 | diseased plus healthy is every pixel of the image |
| Grids.AllTrueCount | analisis.py:89 | an all-true h × w mask counts h·w |
| FletAnalisis.SeverityExceedsOne | analisis.py:89 | two pixels with index −1 give a "severity" of 2, so it is not bounded by 1 |

## Left out

- Widget construction, layout and event wiring are left out. This includes the Tk entries that echo slider values (main.py:227-228, 240-241) and the `<Return>` binding.
- The Tk `Scale.set` calls in the constructor are left out. They fire the callbacks before any image exists, so the guards make them do nothing.
- Toga's `on_change` passes only the widget, while v0.py's slider callbacks expect `(widget, value)`. Dragging a v0.py slider therefore raises TypeError. The model calls these callbacks the way `cargar_imagen` does, with a value.
- Display paths are left out: `mostrar_imagen`, `medianBlur`, resizing, PNG/base64 encoding and label text. A callback's `Done` value is the image it hands to display.
- Image decoding (`cv2.imread`, `PIL.Image.open`, `thumbnail`) is a parameter. It is either a decoded grid with at least one row and one column, or None.
- app.py's images that do not decode to three channels are not modelled: decoded arrays have three channels. In app.py a grayscale or palette image gives a 2-D array and an LA image a 2-channel one; either way `self.original_array[:,:,2]` at app.py:93 raises before `cv2.split` is reached. An RGBA image passes app.py:93-94, which replaces `mascara_hojas`, and then the unpack of `cv2.split` at app.py:105 raises. Either way `pil_image` and `original_array` (app.py:73-75) and the original view (app.py:78-80) have already been replaced when the error is caught at app.py:85-86.
- Otsu's threshold (`cv2.threshold`) and `MiniBatchKMeans` are library internals. The centres are an input to `Advisor.SuggestIndexThreshold`, and the Otsu threshold an input to `Advisor.ClusterInput`.
- `sugerir_umbrales` is not wired into `MainTk.Controller`, because its only call is commented out (main.py:170).
- Floating point is left out. The index, severity and slider values are exact reals, so rounding of the float64 division is not captured, nor is the formatting of severity as a percentage string.
- Saving the processed image (app.py:135-140) and the async dialogs are left out. A dialog's result is a parameter.
- `FileNames.BaseName`: for v0.py's `Path(path).name` (v0.py:77-79) the model keeps the plain text after the last '/', without `pathlib`'s normalisation: `pathlib` drops a trailing '/' and '.' segments, so "a/b/" and "a/b/." give "b" there, while `BaseName` gives "" and ".". The model assumes POSIX paths: on Windows `pathlib` also splits at `\`, which `BaseName` does not.
- `TogaV0.Controller.LoadImage`: a dialog result that is a list is not unpacked; the chosen path is given directly.
- `FletAnalisis.Controller.ProcessImage`: `nombre_archivo` is set to `""` in `__init__` (analisis.py:13) and never changed or read afterwards, so it is not modelled as a field.
- `MainTk.Controller.FinishDisease`: the report is modelled as the returned name and severity; the printing is not modelled.

## Findings

| source | as written | input that shows it | evidently intended | confidence | as-written member | corrected member |
|---|---|---|---|---|---|---|
| main.py:227 | the Background slider callback writes to `self.entry_umbral_b`, but `crear_control_deslizador` creates the entry as `entry_background` (main.py:126 with label "Background") | load any image, then move the Background slider: AttributeError before the preview is drawn | echo the value in `entry_background` and show the preview of `b > int(float(ub))` on a copy of `self.img` | not executed | MainTk.Controller.UpdateBackgroundThreshold | MainTk.Controller.UpdateBackgroundThresholdIntended |
