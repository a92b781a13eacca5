# faceswaplab swap-and-composite core, in Dafny

This project models the core of the faceswaplab extension for Stable Diffusion web UI. The extension swaps faces in still images.

The model covers two parts of that core:

- **The swap pipeline** (`swapper.py`). It locates faces, blends identities, runs one swap over the selected faces, applies one unit to one image, chains the units over a list of images, and drives a batch.
- **The compositing arithmetic** of the upscaled swapper (`upscaled_inswapper.py`). It finds the upscaler and merges two crops under a mask. It builds the difference map with its zeroed border and runs the presence and difference thresholds. It derives kernel sizes from the mask extent, normalises the masks and makes the final weighted blend.

The collaborators the code calls out to are parameters of the model. They are the face analyser (detector), the swap engine (`face_swapper.get`), the content check, the raw cosine similarity and the post-processing enhancer. They are bundled in `Swapper.Env` together with the option store (`Settings.Options`). Absent options take the defaults written at the reading sites: detection threshold 0.5, upscaled swapper off, upscaler "LDSR", `fthresh` 10 and erosion factor 1.

Files:

- `outcomes.dfy`: `Option`, `Result` and the Python exception kinds the core raises.
- `images.dfy`: 8-bit three-channel pixels, rectangular grids, the RGB/BGR channel swap, and the snapshot of a 2-D array as a grid.
- `settings.dfy`: the options the core reads, with their defaults.
- `faces.dfy`: the cosine clamp and `get_or_default`.
  - It also has the face locator: the detection back-off, and the two orders built on a stable sort.
  - It also has the identity blender.
- `swapper.dfy`: `swap_face`, `process_image_unit`, `process_images_units` and `batch_process`.
  - Each of the four has a specification function and a method with the source's loops, proved equal to that function.
  - Lemmas state the pipeline's properties.
- `compositor.dfy`: the pieces of `UpscaledINSwapper.get` and its helpers.
  - In-place array passes are methods over `array2<real>`.
  - The whole-array expressions are functions over grids.

Where the code departs from the system's documented intent, the model follows the code:

- Detection back-off halves the size only while both sides exceed 320. A detector that finds faces only at 160×160 therefore yields nothing from 640×640 (`NoBackoffBelowFloor`). The back-off call also drops `sort_by_face_size`, so a result found after back-off is ordered by left edge (`BackoffOrdersByLeftEdge`).
- The blend check compares the mean only with the first face. Three distinct faces can fail it (`DistinctFacesCanFailBlend`).
- The final blend uses only the presence mask. The difference mask is computed, thresholded and normalised, but it does not enter the blend.
- In `process_images_units`, a disabled first unit yields no image at all (`DisabledFirstUnitDropsAll`). `batch_process` avoids this by keeping only enabled units.

## Model

| member | source | states |
|---|---|---|
| `Settings.DetectionThreshold` | scripts/faceswaplab_swapping/swapper.py:212-213 | An absent detection threshold is 0.5; a stored one is used as is. |
| `Settings.UpscaledSwapper` | scripts/faceswaplab_swapping/swapper.py:107-109 | The upscaled swapper is off unless the option says otherwise. |
| `Settings.UpscalerName` | scripts/faceswaplab_swapping/upscaled_inswapper.py:25-25 | An absent upscaler name is "LDSR". |
| `Settings.DiffThreshold` | scripts/faceswaplab_swapping/upscaled_inswapper.py:152-152 | An absent difference threshold is 10. |
| `Settings.ErosionFactor` | scripts/faceswaplab_swapping/upscaled_inswapper.py:161-161 | An absent erosion factor is 1. |
| `Selection.Select` | scripts/faceswaplab_swapping/swapper.py:98-98 | A list-comprehension filter keeps exactly the elements that pass the test and never adds any. |
| `Selection.Positions` | scripts/faceswaplab_swapping/swapper.py:397-399 | The passing positions are strictly increasing and are exactly the indices whose element passes. |
| `Selection.SelectAtPositions` | scripts/faceswaplab_swapping/swapper.py:397-399 | The filter reads the input at the passing positions, in order, so each passing element is kept once and in place. |
| `Faces.CosineSimilarityFace` | scripts/faceswaplab_swapping/swapper.py:35-59 | The score is the raw cosine clamped below at 0. It is never negative, equals the raw value when that is non-negative, and is 0 otherwise. |
| `Faces.GetOrDefault` | scripts/faceswaplab_swapping/swapper.py:268-281 | An index in range gives the element. An index at or past the end gives the default. A negative index counts from the end. Below `-len` it raises IndexError, and only then. |
| `Faces.StableSort` | scripts/faceswaplab_swapping/swapper.py:230-239 | The result is ordered by the key and is a permutation of the input. |
| `Faces.StableSortKeepsKeyOrder` | scripts/faceswaplab_swapping/swapper.py:230-239 | Faces with equal keys keep their input order, as Python's `sorted` does, including with `reverse=True` on the negated key. |
| `Faces.Attempts` | scripts/faceswaplab_swapping/swapper.py:222-228 | The detection sizes tried start at the requested size. Each next size halves both sides, and it is tried only when nothing was found and both sides exceed 320. The last size tried does not back off. |
| `Faces.GetFaces` | scripts/faceswaplab_swapping/swapper.py:194-241 | The face locator itself: detection at the given size, the back-off, the except branch and the two orders. Its properties are stated by `GetFacesResult` and the lemmas after it. |
| `Faces.GetFacesResult` | scripts/faceswaplab_swapping/swapper.py:194-241 | The located faces are a permutation of what the detector found at the last size tried. They are empty when some face lacks a bounding box. They are ordered by decreasing area when size sorting was asked and no back-off happened, and by left edge otherwise. |
| `Faces.BackoffOrdersByLeftEdge` | scripts/faceswaplab_swapping/swapper.py:226-239 | After a back-off the result is that of the half size without size sorting, so it is ordered by left edge. |
| `Faces.DefaultSizeTriesAtMostTwice` | scripts/faceswaplab_swapping/swapper.py:196-228 | From the default 640×640 the locator tries 640×640 and at most 320×320. |
| `Faces.NoBackoffBelowFloor` | scripts/faceswaplab_swapping/swapper.py:224-228 | A detector that finds faces only at 160×160 or below yields no face from 640×640. |
| `Faces.BlendFaces` | scripts/faceswaplab_swapping/swapper.py:313-356 | No faces gives None. Differing embedding lengths raise ValueError. With two or more faces, a mean equal to the first embedding fails the assertion. Otherwise the result carries the mean embedding and the first face's gender and age. Each case holds exactly when its condition holds. |
| `Faces.MeanWithinBounds` | scripts/faceswaplab_swapping/swapper.py:338-339 | Each component of the mean lies between the bounds of that component over the inputs. |
| `Faces.MeanOfEqualEmbeddings` | scripts/faceswaplab_swapping/swapper.py:338-339 | The mean of equal embeddings is that embedding. |
| `Faces.BlendSingle` | scripts/faceswaplab_swapping/swapper.py:343-353 | Blending one face keeps its embedding, gender and age. |
| `Faces.BlendOfIdenticalFails` | scripts/faceswaplab_swapping/swapper.py:347-351 | Two or more faces with one embedding fail the blend assertion. |
| `Faces.BlendTwoUnitVectors` | scripts/faceswaplab_swapping/swapper.py:338-345 | Blending [1,0] and [0,1] gives [0.5,0.5]. |
| `Faces.DistinctFacesCanFailBlend` | scripts/faceswaplab_swapping/swapper.py:347-351 | Three distinct faces with embeddings [0], [1] and [-1] fail the assertion. |
| `Images.ColourRoundTrip` | scripts/faceswaplab_swapping/swapper.py:387-415 | Converting RGB to BGR and back, or BGR to RGB and back, gives the original image. |
| `Swapper.OfGender` | scripts/faceswaplab_swapping/swapper.py:397-399 | The gender filter keeps exactly the faces of the source's gender, each once and in their order: the k-th kept face is the face at the k-th matching position. The swap loop's indices refer to this order. |
| `Swapper.SimilarityMap` | scripts/faceswaplab_swapping/swapper.py:423-431 | Scores are recorded exactly at the result-face positions that are selected and below the target-face count. Each score is the clamped cosine, so it is non-negative. |
| `Swapper.ScoreFaces` | scripts/faceswaplab_swapping/swapper.py:423-431 | The similarity loop returns the source-score map and the reference-score map of the specification. Without a reference face, it raises as soon as any selected face is due a score. |
| `Swapper.SwapFaceSpec` | scripts/faceswaplab_swapping/swapper.py:359-442 | What `swap_face` returns or raises: TypeError without a source, the swapped image, and the two similarity maps when asked. Its properties are stated by `SwapFaceContract` and the swap lemmas. |
| `Swapper.SwapFace` | scripts/faceswaplab_swapping/swapper.py:359-442 | The method with both loops returns what the `swap_face` specification returns: the engine applied at the selected target positions, then the two similarity maps. |
| `Swapper.SwapFaceContract` | scripts/faceswaplab_swapping/swapper.py:385-442 | It fails exactly when the source is missing, or when a similarity is needed against a missing reference. Otherwise the image is the swapped image. Both maps are empty when similarity is off. The maps share their keys, which are selected indices below both face counts, and all scores are non-negative. |
| `Swapper.SwapPositionsSpec` | scripts/faceswaplab_swapping/swapper.py:401-407 | The positions the engine is called at are strictly increasing. They are exactly the selected indices below the face count. |
| `Swapper.SwapLoopCallsEngineInOrder` | scripts/faceswaplab_swapping/swapper.py:401-407 | The swap loop equals applying the engine at the selected positions in increasing order. |
| `Swapper.SwapPrefixSeesOnlyRange` | scripts/faceswaplab_swapping/swapper.py:401-407 | The loop's result depends only on the selected indices inside the face range. |
| `Swapper.OutOfRangeIndicesIgnored` | scripts/faceswaplab_swapping/swapper.py:401-431 | Adding or removing selected indices outside the face range does not change the result of `swap_face`. |
| `Swapper.SwapPrefixUnselected` | scripts/faceswaplab_swapping/swapper.py:401-407 | A loop with no selected position leaves the image as it was. |
| `Swapper.NothingSelectedLeavesImage` | scripts/faceswaplab_swapping/swapper.py:401-410 | When no selected index names a target face, the result image is the target image. |
| `Swapper.Identities` | scripts/faceswaplab_swapping/swapper.py:468-480 | Without blending, each configured face is swapped in turn. With blending, the blended face alone is used. With more than one configured face, a missing reference or blend raises AttributeError, and a reference whose embedding equals the blend's raises AssertionError. Each error holds exactly when its condition holds. |
| `Swapper.Accepted` | scripts/faceswaplab_swapping/swapper.py:506-517 | The similarity gate: a result passes when the check is off, or when its similarity map is non-empty and every score meets the unit's minimum and every reference score the reference minimum. |
| `Swapper.ReferenceFor` | scripts/faceswaplab_swapping/swapper.py:484-488 | Similarity is measured against the unit's reference face when it has one, and against the identity otherwise. |
| `Swapper.ProcessImageUnitSpec` | scripts/faceswaplab_swapping/swapper.py:445-529 | What `process_image_unit` returns or raises. Its properties are stated by `UnitOutputs` and the unit lemmas. |
| `Swapper.ProcessImageUnit` | scripts/faceswaplab_swapping/swapper.py:445-529 | The method returns what the `process_image_unit` specification returns. |
| `Swapper.SwapEachIdentity` | scripts/faceswaplab_swapping/swapper.py:482-523 | The loop over identities returns the accepted swaps in identity order, or the first failure. |
| `Swapper.UnitSwapsOutputs` | scripts/faceswaplab_swapping/swapper.py:482-523 | Outputs never outnumber identities, and they are equal in number when the check is off. Each output is a swap with one identity that passed the gate, annotated with that swap's maps on top of the incoming info. Conversely, every swap that passes the gate is output. |
| `Swapper.UnitSwapsInIdentityOrder` | scripts/faceswaplab_swapping/swapper.py:482-529 | The outputs of the earlier identities come first: the loop over any prefix of the identities yields a prefix of the outputs. |
| `Swapper.UnitSwapsKeepsAccepted` | scripts/faceswaplab_swapping/swapper.py:506-523 | When the loop succeeds, the swap with each identity that passes the gate is among the outputs, annotated with its maps. |
| `Swapper.UnitOutputs` | scripts/faceswaplab_swapping/swapper.py:464-529 | A disabled unit yields nothing, and an unsafe image is returned alone with its info. Otherwise the unit yields at most one output per identity: one in blend mode, one per configured face otherwise. It yields exactly that many when the check is off. Every output comes from an accepted swap, and every accepted swap is output. |
| `Swapper.UnitOutputsPassGate` | scripts/faceswaplab_swapping/swapper.py:506-523 | With the check on, every output has some similarity, every similarity is at least the minimum, and every reference similarity is at least the reference minimum. Conversely, a swap whose similarity is non-empty and whose scores all meet both minimums is output. |
| `Swapper.UncomputedSimilarityIsEmpty` | scripts/faceswaplab_swapping/swapper.py:412-431 | Without similarity computation, every output carries empty maps. |
| `Swapper.CheckWithoutComputeDropsAll` | scripts/faceswaplab_swapping/swapper.py:506-517 | With the check on and similarity not computed, every swap is dropped. |
| `Swapper.NoReferenceScoresAgainstIdentity` | scripts/faceswaplab_swapping/swapper.py:484-488 | Without a reference face, each output's reference map equals its similarity map. |
| `Swapper.EnumeratingUnitFansOut` | scripts/faceswaplab_swapping/swapper.py:468-523 | An enabled, enumerating, unchecked unit on a safe image never fails. It yields one output per configured face. |
| `Swapper.EnumerationNeverFails` | scripts/faceswaplab_swapping/swapper.py:482-501 | Swapping in identities that are all present never raises. |
| `Swapper.ChainSpec` | scripts/faceswaplab_swapping/swapper.py:532-560 | What `process_images_units` returns or raises: None without units, otherwise the fold over the images. Its properties are stated by `ChainCount` and the chain lemmas. |
| `Swapper.FoldImages` | scripts/faceswaplab_swapping/swapper.py:546-560 | The loop over the images, concatenating each image's chunk in order and stopping at the first raise. |
| `Swapper.FoldImagesInImageOrder` | scripts/faceswaplab_swapping/swapper.py:545-560 | The outputs of the earlier images come first: folding any prefix of the images yields a prefix of the outputs. |
| `Swapper.Chunk` | scripts/faceswaplab_swapping/swapper.py:548-558 | One image's contribution: the rest of the chain applied to the first unit's outputs, or those outputs when the rest gives None or nothing. |
| `Swapper.ProcessImagesUnits` | scripts/faceswaplab_swapping/swapper.py:532-560 | The recursive method returns what the chain specification returns. No units gives None. Otherwise, for each image in order, it appends the rest of the chain's outputs for the first unit's outputs, or those outputs themselves when the rest gives None or nothing. |
| `Swapper.ChainCount` | scripts/faceswaplab_swapping/swapper.py:539-558 | A chain of enabled, enumerating, unchecked units on safe images never fails. It gives None only without units. Otherwise each image yields `Yield(units)` outputs: each unit multiplies the count by its face count, and a unit yielding nothing keeps the previous outputs. |
| `Swapper.ChainOfTwoAndThreeMakesSix` | scripts/faceswaplab_swapping/swapper.py:545-558 | Two such units with two and three faces turn one image into six. |
| `Swapper.DisabledFirstUnitDropsAll` | scripts/faceswaplab_swapping/swapper.py:545-558 | A disabled first unit makes the whole chain yield an empty list. |
| `Swapper.EnabledUnits` | scripts/faceswaplab_swapping/swapper.py:98-98 | The units kept are exactly the enabled ones, each once and in their order, which is the chain order: the k-th kept unit is the unit at the k-th enabled position. |
| `Swapper.Enhanced` | scripts/faceswaplab_swapping/swapper.py:115-116 | Each output image is replaced by its enhanced version, position by position. |
| `Swapper.EnhanceAll` | scripts/faceswaplab_swapping/swapper.py:114-116 | The enhancement loop replaces each output image by its enhanced version in place, giving `Enhanced`. |
| `Swapper.BatchImages` | scripts/faceswaplab_swapping/swapper.py:101-125 | The images collected over the sources in source order, None as soon as one chain raises. Its properties are stated by `BatchImagesOutcome`, `BatchImagesComplete` and `BatchCount`. |
| `Swapper.BatchSpec` | scripts/faceswaplab_swapping/swapper.py:94-132 | What `batch_process` returns: None without sources or enabled units, otherwise the collected images. Its properties are stated by `BatchNoneIff`. |
| `Swapper.BatchProcess` | scripts/faceswaplab_swapping/swapper.py:88-132 | The method with both loops returns what the batch specification returns. |
| `Swapper.BatchImagesOutcome` | scripts/faceswaplab_swapping/swapper.py:99-132 | Collecting fails exactly when the chain raises on some source. Otherwise every collected image is the enhanced image of some output of the chain on one of the sources. |
| `Swapper.BatchImagesComplete` | scripts/faceswaplab_swapping/swapper.py:99-125 | When no chain raises, the collected images are exactly `AllEnhanced`: the enhanced outputs of each source's chain, source by source and output by output. So every enhanced output of every source is collected. |
| `Swapper.BatchNoneIff` | scripts/faceswaplab_swapping/swapper.py:94-132 | `batch_process` returns None exactly when there are no sources, no unit is enabled, or the chain raises on some source. |
| `Swapper.BatchCount` | scripts/faceswaplab_swapping/swapper.py:101-125 | With plain enabled units, every source contributes `Yield(units)` images. |
| `Compositor.GetUpscaler` | scripts/faceswaplab_swapping/upscaled_inswapper.py:23-27 | It returns None exactly when no upscaler has the configured name. Otherwise it returns the first upscaler with that name. |
| `Compositor.MergeImagesWithMask` | scripts/faceswaplab_swapping/upscaled_inswapper.py:29-37 | It raises ValueError exactly when the images differ in shape or the mask differs from their height×width. Otherwise each pixel is the first image outside the mask plus the second inside it, added with saturation. |
| `Compositor.MergePixelCases` | scripts/faceswaplab_swapping/upscaled_inswapper.py:32-37 | A mask byte of 0 keeps the first image's pixel and 255 takes the second's. Values in between add both, and each of the three channels is at least the larger of the two. |
| `Compositor.MergeWithBinaryMask` | scripts/faceswaplab_swapping/upscaled_inswapper.py:32-37 | With a mask of zeros and 255s, each merged pixel comes from the first image where the mask is 0 and from the second where it is 255. |
| `Compositor.MergeWithUniformMask` | scripts/faceswaplab_swapping/upscaled_inswapper.py:29-37 | An all-zero mask gives back the first image, and an all-255 mask gives the second. |
| `Compositor.ComputeDiff` | scripts/faceswaplab_swapping/upscaled_inswapper.py:100-107 | The map has the crops' shape. It is zero on the two outer rows and columns of each side, and inside it is the channel mean of the absolute differences. Crops of different shapes raise. |
| `Compositor.ZeroRows` | scripts/faceswaplab_swapping/upscaled_inswapper.py:103-104 | The slice of rows is zeroed in place and every other cell is unchanged. |
| `Compositor.ZeroCols` | scripts/faceswaplab_swapping/upscaled_inswapper.py:105-106 | The slice of columns is zeroed in place and every other cell is unchanged. |
| `Compositor.MeanAbsDiffBounds` | scripts/faceswaplab_swapping/upscaled_inswapper.py:101-102 | A per-pixel difference lies in [0, 255]. It is zero exactly for equal pixels. |
| `Compositor.DiffAtBounds` | scripts/faceswaplab_swapping/upscaled_inswapper.py:100-107 | Every cell of the difference map lies in [0, 255]. Border cells are zero, and an interior cell is zero exactly where the crops agree. |
| `Compositor.SmallMapIsAllBorder` | scripts/faceswaplab_swapping/upscaled_inswapper.py:103-106 | A map at most four cells high or wide is all border. |
| `Compositor.PresenceLevel` | scripts/faceswaplab_swapping/upscaled_inswapper.py:151-151 | One cell of the presence threshold. Its properties are stated by `PresenceLevelSpec`. |
| `Compositor.ThresholdPresence` | scripts/faceswaplab_swapping/upscaled_inswapper.py:151-151 | Every cell above 20 becomes 255 in place, and the others are unchanged. |
| `Compositor.PresenceLevelSpec` | scripts/faceswaplab_swapping/upscaled_inswapper.py:151-151 | Values above 20 become 255 and others stay. The pass is idempotent and never lowers a value in [0, 255]. |
| `Compositor.DiffLevel` | scripts/faceswaplab_swapping/upscaled_inswapper.py:154-155 | One cell of the two difference assignments in order. Its properties are stated by `DiffLevelSpec`. |
| `Compositor.ThresholdDiff` | scripts/faceswaplab_swapping/upscaled_inswapper.py:152-155 | The two masked assignments run in place, in order, with the configured threshold. |
| `Compositor.DiffLevelSpec` | scripts/faceswaplab_swapping/upscaled_inswapper.py:154-155 | With a positive threshold, every cell becomes 0 or 255, and it is 255 exactly when its value reached the threshold. With a threshold of 0 or below, every cell becomes 255. |
| `Compositor.MaskExtent` | scripts/faceswaplab_swapping/upscaled_inswapper.py:157-159 | The least and greatest rows and columns holding a 255 cell. Its properties are stated by `MaskExtentSpec`. |
| `Compositor.MaskExtentSpec` | scripts/faceswaplab_swapping/upscaled_inswapper.py:157-159 | An extent exists exactly when some cell equals 255. It is then the tightest box around all such cells, and each side touches one of them. |
| `Compositor.ISqrt` | scripts/faceswaplab_swapping/upscaled_inswapper.py:160-160 | `int(np.sqrt(n))` is the floor square root: r·r ≤ n < (r+1)·(r+1). |
| `Compositor.Trunc` | scripts/faceswaplab_swapping/upscaled_inswapper.py:162-174 | `int()` of a float truncates toward zero. |
| `Compositor.MaskSize` | scripts/faceswaplab_swapping/upscaled_inswapper.py:157-160 | The mask size is the floor square root of the extent's height times its width. A mask with no 255 cell raises ValueError, and only such a mask. |
| `Compositor.ErosionKernel` | scripts/faceswaplab_swapping/upscaled_inswapper.py:161-162 | The erosion kernel side from the mask size and the erosion factor. Its properties are stated by `KernelsGrowWithMask`, `KernelOrder` and `KernelsAtDefaultFactor`. |
| `Compositor.MaskBlurHalf` | scripts/faceswaplab_swapping/upscaled_inswapper.py:168-168 | Half the presence mask's blur size. Its properties are stated by the kernel lemmas. |
| `Compositor.DiffBlurHalf` | scripts/faceswaplab_swapping/upscaled_inswapper.py:174-174 | Half the difference mask's blur size. Its properties are stated by the kernel lemmas. |
| `Compositor.BlurSize` | scripts/faceswaplab_swapping/upscaled_inswapper.py:172-172 | Every blur size `2k+1` is odd and exceeds `2k`. |
| `Compositor.KernelSizes` | scripts/faceswaplab_swapping/upscaled_inswapper.py:157-176 | It raises exactly when the mask has no 255 cell. Otherwise the mask size `s` exists. The erosion kernel is then `ErosionKernel(s, ef)`, at least `int(10·ef)`. The mask blur is `2·MaskBlurHalf(s, ef)+1` and the difference blur `2·int(5·ef)+1`, both odd. |
| `Compositor.KernelsGrowWithMask` | scripts/faceswaplab_swapping/upscaled_inswapper.py:162-168 | For a non-negative erosion factor, the erosion kernel and the mask blur never shrink as the mask grows. |
| `Compositor.KernelOrder` | scripts/faceswaplab_swapping/upscaled_inswapper.py:162-174 | For a non-negative factor, erosion kernel ≥ mask blur half ≥ difference blur half ≥ 0. |
| `Compositor.KernelsAtDefaultFactor` | scripts/faceswaplab_swapping/upscaled_inswapper.py:161-174 | With factor 1, the kernels are `max(s//10, 10)`, `max(s//20, 5)` and 5. |
| `Compositor.DivideBy255` | scripts/faceswaplab_swapping/upscaled_inswapper.py:178-179 | Every cell is divided by 255 in place. |
| `Compositor.NormalisedWeight` | scripts/faceswaplab_swapping/upscaled_inswapper.py:178-179 | A value in [0, 255] becomes a weight in [0, 1], with 0 and 255 at the endpoints. |
| `Compositor.BlendChannel` | scripts/faceswaplab_swapping/upscaled_inswapper.py:182-183 | Weight 0 gives the target channel and weight 1 the fake channel. Every result lies between the two. |
| `Compositor.Blend` | scripts/faceswaplab_swapping/upscaled_inswapper.py:181-184 | Arrays of different shapes raise. Otherwise each pixel is the weighted blend of fake and target under the presence weight. |
| `Compositor.BlendEndpoints` | scripts/faceswaplab_swapping/upscaled_inswapper.py:181-183 | Where the weight is 0 the output pixel is the target's, and where it is 1 the fake's. Each of the three channels lies between the fake's and the target's. |
| `Compositor.BlendWithUniformMask` | scripts/faceswaplab_swapping/upscaled_inswapper.py:181-184 | A uniform weight of 1 returns the fake and a uniform weight of 0 the target. |

## Left out

- The collaborators are function-valued parameters, not models:
  - the face analyser, the swap engine (ONNX inference, alignment, the latent projection, `forward`), `check_against_nsfw`, sklearn's cosine and `enhance_image`;
  - `super_resolution`, colour correction, the segmentation face mask, and the OpenCV warps, erosions, dilations, blurs and sharpening.

  They are treated as total: an exception raised inside one of them is not modelled.
- The sequence inside `UpscaledINSwapper.get` that joins the modelled pieces with those OpenCV calls is not modelled as one operation. The paste-back toggle and the upscale branch go with it.
- Model loading and caching (`getAnalysisModel`, `getFaceSwapModel`, `FaceModelException`) are I/O and are left out. So are gradio file loading (`get_faces_from_img_files`), `compare_faces`, logging, debug images, the `makedirs` call and the temporary PNG files written by `batch_process`.
- The info string is an opaque chain of annotations (`Swapper.Info`), not formatted text.
- Floating point is modelled by exact reals: float32 and float64 rounding, NaN and infinities are not modelled.
- NumPy broadcasting is not modelled: arrays must match in shape exactly, and any other shape raises.
- `CosineSimilarityFace`: the raw cosine and the error for embeddings of different lengths belong to the cosine parameter. Only the clamp is modelled.
- `SwapFace`: a target image that is not an RGB array is not modelled. Images are always three-channel 8-bit grids.
- `MergeImagesWithMask`: only integer masks are modelled, with the cast to 8 bits taken modulo 256. Float masks are not modelled.
- `ISqrt`: the model takes the exact floor root. The float square root agrees with it for every area below 2^52, which covers every image size the code meets.
- `BlendChannel`: requires the weight in [0, 1], because the normalised, blurred presence mask always lies there. The cast of out-of-range values to 8 bits is not modelled.
- `Blend`: requires every weight in [0, 1], for the same reason.
- `KernelSizes`: a negative erosion factor can make a kernel side negative. The source then raises: for a mask size of 10 or more, `np.ones` rejects the negative erosion kernel first (upscaled_inswapper.py:164), and OpenCV rejects a negative blur size. The model computes the sizes and does not raise in that case. A zero side, from a factor in [0, 0.1), is accepted and is modelled.
- `ComputeDiff`: the float32 subtraction and mean are exact in the model.
