/** The swap pipeline of `swapper.py`: one swap over the selected faces of an
    image, one unit applied to one image, units chained over a list of images,
    and the batch driver. The detector, the swap engine, the content check, the
    raw cosine and the post-processing are parameters. */
module Swapper {
  import opened Outcomes
  import opened Images
  import opened Faces
  import Settings
  import opened Selection

  /** The process-wide collaborators and the option store the pipeline reads. */
  datatype Env = Env(
    detect: Detector,                          // the face analyser, prepared per call
    swap: (Image, Face, Face, bool) -> Image,  // face_swapper.get(img, target face, source face, upscale)
    isNsfw: Image -> bool,                     // check_against_nsfw
    cosine: Cosine,                            // sklearn's cosine_similarity of two embeddings
    enhance: Image -> Image,                   // enhance_image with the batch's post-processing options
    opts: Settings.Options)

  /** The info string threaded through units: each accepted swap appends its two
      similarity maps to the info it received. */
  datatype Info = NoInfo | Annotated(previous: Info, similarity: map<int, real>, refSimilarity: map<int, real>)

  datatype ImageResult = ImageResult(image: Image, similarity: map<int, real>, refSimilarity: map<int, real>)

  /** One configured swap unit. */
  datatype Unit = Unit(
    enable: bool,
    faces: seq<Face>,
    blendedFaces: Option<Face>,
    referenceFace: Option<Face>,
    facesIndex: set<int>,
    sameGender: bool,
    blendFaces: bool,
    sortBySize: bool,
    computeSimilarity: bool,
    checkSimilarity: bool,
    minSim: real,
    minRefSim: real)

  type Output = (Image, Info)

  // ---------------------------------------------------------------------------
  // swap_face

  function GenderTest(g: Gender): Face -> bool {
    (f: Face) => f.gender == g
  }

  /** The faces of gender `g`, in their order: the face at position k of the
      result is the k-th face of `faces` with that gender. */
  function OfGender(faces: seq<Face>, g: Gender): (r: seq<Face>)
    ensures |r| <= |faces|
    ensures forall f :: f in r <==> f in faces && f.gender == g
    ensures var p := Positions(faces, GenderTest(g));
            |r| == |p| && forall k :: 0 <= k < |r| ==> r[k] == faces[p[k]]
  {
    SelectAtPositions(faces, GenderTest(g));
    Select(faces, GenderTest(g))
  }

  /** The faces `swap_face` works on in a BGR image: located at the default size
      and threshold, then kept to the source's gender when asked. */
  function Candidates(env: Env, bgr: Image, gender: Gender, sameGender: bool, sortBySize: bool): seq<Face> {
    var found := GetFaces(env.detect, bgr, DefaultDetSize, DefaultDetSize, Settings.DetectionThreshold(env.opts), sortBySize);
    if sameGender then OfGender(found, gender) else found
  }

  /** The image after the swap loop has visited positions 0 .. k-1. */
  function SwapPrefix(env: Env, img: Image, faces: seq<Face>, index: set<int>, source: Face, upscale: bool, k: nat): Image
    requires k <= |faces|
  {
    if k == 0 then img
    else
      var prev := SwapPrefix(env, img, faces, index, source, upscale, k - 1);
      if k - 1 in index then env.swap(prev, faces[k - 1], source, upscale) else prev
  }

  /** The similarity of `probe` to each result face whose position is selected
      and below `bound`, over the first `upto` result faces. */
  function SimilarityMap(cosine: Cosine, probe: Face, resultFaces: seq<Face>, index: set<int>, bound: int, upto: nat): (m: map<int, real>)
    requires upto <= |resultFaces|
    ensures forall i :: i in m <==> 0 <= i < upto && i in index && i < bound
    ensures forall i :: i in m ==> m[i] == CosineSimilarityFace(cosine, probe, resultFaces[i]) && m[i] >= 0.0
  {
    map i | 0 <= i < upto && i in index && i < bound :: CosineSimilarityFace(cosine, probe, resultFaces[i])
  }

  lemma SimilarityMapStep(cosine: Cosine, probe: Face, resultFaces: seq<Face>, index: set<int>, bound: int, i: nat)
    requires i < |resultFaces|
    ensures SimilarityMap(cosine, probe, resultFaces, index, bound, i + 1) ==
      if i in index && i < bound
      then SimilarityMap(cosine, probe, resultFaces, index, bound, i)[i := CosineSimilarityFace(cosine, probe, resultFaces[i])]
      else SimilarityMap(cosine, probe, resultFaces, index, bound, i)
  {
  }

  /** The faces the swap loop visits. */
  function TargetFaces(env: Env, source: Face, targetImg: Image, sameGender: bool, sortBySize: bool): seq<Face> {
    Candidates(env, RgbToBgr(targetImg), source.gender, sameGender, sortBySize)
  }

  /** The swapped image, converted back to RGB. */
  function SwappedImage(env: Env, source: Face, targetImg: Image, index: set<int>, sameGender: bool, upscale: bool, sortBySize: bool): Image {
    var faces := TargetFaces(env, source, targetImg, sameGender, sortBySize);
    BgrToRgb(SwapPrefix(env, RgbToBgr(targetImg), faces, index, source, upscale, |faces|))
  }

  /** The faces found again in the swapped image. */
  function ResultFaces(env: Env, source: Face, targetImg: Image, index: set<int>, sameGender: bool, upscale: bool, sortBySize: bool): seq<Face> {
    Candidates(env, RgbToBgr(SwappedImage(env, source, targetImg, index, sameGender, upscale, sortBySize)), source.gender, sameGender, sortBySize)
  }

  /** What `swap_face` returns or raises. */
  function SwapFaceSpec(env: Env, referenceFace: Option<Face>, sourceFace: Option<Face>, targetImg: Image,
                        index: set<int>, sameGender: bool, upscale: bool, computeSimilarity: bool, sortBySize: bool): Result<ImageResult>
  {
    if sourceFace.None? then Err(TypeError)
    else
      var source := sourceFace.value;
      var bound := |TargetFaces(env, source, targetImg, sameGender, sortBySize)|;
      var image := SwappedImage(env, source, targetImg, index, sameGender, upscale, sortBySize);
      if !computeSimilarity then Ok(ImageResult(image, map[], map[]))
      else
        var resultFaces := ResultFaces(env, source, targetImg, index, sameGender, upscale, sortBySize);
        var similarity := SimilarityMap(env.cosine, source, resultFaces, index, bound, |resultFaces|);
        match referenceFace
        case None => if similarity == map[] then Ok(ImageResult(image, map[], map[])) else Err(AttributeError)
        case Some(reference) =>
          Ok(ImageResult(image, similarity, SimilarityMap(env.cosine, reference, resultFaces, index, bound, |resultFaces|)))
  }

  /** `swap_face`: converts the image to BGR, swaps the selected target faces one
      after the other, converts back and, when asked, scores the faces found in
      the result against the source and the reference face. */
  method SwapFace(env: Env, referenceFace: Option<Face>, sourceFace: Option<Face>, targetImg: Image,
                  index: set<int>, sameGender: bool, upscale: bool, computeSimilarity: bool, sortBySize: bool)
    returns (r: Result<ImageResult>)
    ensures r == SwapFaceSpec(env, referenceFace, sourceFace, targetImg, index, sameGender, upscale, computeSimilarity, sortBySize)
  {
    if sourceFace.None? {
      return Err(TypeError);
    }
    var source := sourceFace.value;
    var target := RgbToBgr(targetImg);
    var result := target;
    var targetFaces := Candidates(env, target, source.gender, sameGender, sortBySize);
    for i := 0 to |targetFaces|
      invariant result == SwapPrefix(env, target, targetFaces, index, source, upscale, i)
    {
      if i in index {
        result := env.swap(result, targetFaces[i], source, upscale);
      }
    }
    var resultImage := BgrToRgb(result);
    if !computeSimilarity {
      return Ok(ImageResult(resultImage, map[], map[]));
    }
    var resultFaces := Candidates(env, RgbToBgr(resultImage), source.gender, sameGender, sortBySize);
    var scores := ScoreFaces(env, referenceFace, source, resultFaces, index, |targetFaces|);
    assert resultImage == SwappedImage(env, source, targetImg, index, sameGender, upscale, sortBySize);
    if scores.Err? {
      return Err(scores.error);
    }
    return Ok(ImageResult(resultImage, scores.value.0, scores.value.1));
  }

  /** The similarity loop of `swap_face`: scores each selected face found again
      in the result against the source and, when there is one, the reference
      face; a selected face with no reference face to score against raises. */
  method ScoreFaces(env: Env, referenceFace: Option<Face>, source: Face, resultFaces: seq<Face>, index: set<int>, bound: nat)
    returns (r: Result<(map<int, real>, map<int, real>)>)
    ensures var similarity := SimilarityMap(env.cosine, source, resultFaces, index, bound, |resultFaces|);
      match referenceFace
      case None => r == (if similarity == map[] then Ok((map[], map[])) else Err(AttributeError))
      case Some(reference) => r == Ok((similarity, SimilarityMap(env.cosine, reference, resultFaces, index, bound, |resultFaces|)))
  {
    var similarity: map<int, real> := map[];
    var refSimilarity: map<int, real> := map[];
    for i := 0 to |resultFaces|
      invariant similarity == SimilarityMap(env.cosine, source, resultFaces, index, bound, i)
      invariant referenceFace.Some? ==>
        refSimilarity == SimilarityMap(env.cosine, referenceFace.value, resultFaces, index, bound, i)
      invariant referenceFace.None? ==> similarity == map[] && refSimilarity == map[]
    {
      SimilarityMapStep(env.cosine, source, resultFaces, index, bound, i);
      if referenceFace.Some? {
        SimilarityMapStep(env.cosine, referenceFace.value, resultFaces, index, bound, i);
      }
      if i in index && i < bound {
        similarity := similarity[i := CosineSimilarityFace(env.cosine, source, resultFaces[i])];
        if referenceFace.None? {
          assert i in SimilarityMap(env.cosine, source, resultFaces, index, bound, |resultFaces|);
          return Err(AttributeError);
        }
        refSimilarity := refSimilarity[i := CosineSimilarityFace(env.cosine, referenceFace.value, resultFaces[i])];
      }
    }
    return Ok((similarity, refSimilarity));
  }

  /** `swap_face` fails only without a source face, or when a similarity is
      due and there is no reference face to score against. Both similarity maps
      are empty unless similarity is computed; they share one key set, made of
      selected positions below both the number of target faces and the number
      of faces found again in the result; every score is non-negative. */
  lemma SwapFaceContract(env: Env, referenceFace: Option<Face>, sourceFace: Option<Face>, targetImg: Image,
                         index: set<int>, sameGender: bool, upscale: bool, computeSimilarity: bool, sortBySize: bool)
    ensures var r := SwapFaceSpec(env, referenceFace, sourceFace, targetImg, index, sameGender, upscale, computeSimilarity, sortBySize);
      r.Err? <==> (
        || sourceFace.None?
        || (computeSimilarity && referenceFace.None? &&
            exists i :: i in index && 0 <= i < |TargetFaces(env, sourceFace.value, targetImg, sameGender, sortBySize)| &&
                        i < |ResultFaces(env, sourceFace.value, targetImg, index, sameGender, upscale, sortBySize)|))
    ensures var r := SwapFaceSpec(env, referenceFace, sourceFace, targetImg, index, sameGender, upscale, computeSimilarity, sortBySize);
      r.Ok? ==>
        var source := sourceFace.value;
        var bound := |TargetFaces(env, source, targetImg, sameGender, sortBySize)|;
        var found := |ResultFaces(env, source, targetImg, index, sameGender, upscale, sortBySize)|;
        && r.value.image == SwappedImage(env, source, targetImg, index, sameGender, upscale, sortBySize)
        && (!computeSimilarity ==> r.value.similarity == map[] && r.value.refSimilarity == map[])
        && r.value.similarity.Keys == r.value.refSimilarity.Keys
        && (forall i :: i in r.value.similarity ==> i in index && 0 <= i < bound && i < found)
        && (forall i :: i in r.value.similarity ==> r.value.similarity[i] >= 0.0 && r.value.refSimilarity[i] >= 0.0)
  {
  }

  /** The positions at which the swap loop calls the engine, in call order. */
  function SwapPositions(index: set<int>, n: nat): (p: seq<nat>)
    ensures forall a :: 0 <= a < |p| ==> p[a] < n
  {
    if n == 0 then []
    else SwapPositions(index, n - 1) + (if n - 1 in index then [n - 1] else [])
  }

  /** The engine is called at strictly increasing positions, exactly at the
      selected indices below `n`. */
  lemma {:induction false} SwapPositionsSpec(index: set<int>, n: nat)
    ensures var p := SwapPositions(index, n);
      && (forall a, b :: 0 <= a < b < |p| ==> p[a] < p[b])
      && (forall k :: k in p <==> 0 <= k < n && k in index)
  {
    if n > 0 {
      SwapPositionsSpec(index, n - 1);
      var p := SwapPositions(index, n - 1);
      forall k | k in SwapPositions(index, n) ensures 0 <= k < n && k in index {
        if k in p {
          var a :| 0 <= a < |p| && p[a] == k;
        }
      }
    }
  }

  /** The engine applied to the faces at `positions`, in order, each call taking
      the previous call's output. */
  function ApplyAt(env: Env, img: Image, faces: seq<Face>, positions: seq<nat>, source: Face, upscale: bool): Image
    requires forall k :: 0 <= k < |positions| ==> positions[k] < |faces|
  {
    if positions == [] then img
    else
      var last := positions[|positions| - 1];
      env.swap(ApplyAt(env, img, faces, positions[..|positions| - 1], source, upscale), faces[last], source, upscale)
  }

  /** The swap loop calls the engine exactly at the selected positions below
      `n`, in increasing order, threading the image through the calls. */
  lemma {:induction false} SwapLoopCallsEngineInOrder(env: Env, img: Image, faces: seq<Face>, index: set<int>, source: Face, upscale: bool, n: nat)
    requires n <= |faces|
    ensures SwapPrefix(env, img, faces, index, source, upscale, n) == ApplyAt(env, img, faces, SwapPositions(index, n), source, upscale)
  {
    if n > 0 {
      SwapLoopCallsEngineInOrder(env, img, faces, index, source, upscale, n - 1);
      ApplyAtNextPosition(env, img, faces, index, source, upscale, n);
    }
  }

  /** One more position either adds one engine call at its end or none. */
  lemma ApplyAtNextPosition(env: Env, img: Image, faces: seq<Face>, index: set<int>, source: Face, upscale: bool, n: nat)
    requires 0 < n <= |faces|
    ensures var prev := ApplyAt(env, img, faces, SwapPositions(index, n - 1), source, upscale);
      ApplyAt(env, img, faces, SwapPositions(index, n), source, upscale) ==
        if n - 1 in index then env.swap(prev, faces[n - 1], source, upscale) else prev
  {
    var p := SwapPositions(index, n - 1);
    if n - 1 in index {
      assert SwapPositions(index, n) == p + [n - 1];
      ApplyAtAppend(env, img, faces, p, n - 1, source, upscale);
    } else {
      assert SwapPositions(index, n) == p + [] == p;
    }
  }

  lemma ApplyAtAppend(env: Env, img: Image, faces: seq<Face>, positions: seq<nat>, last: nat, source: Face, upscale: bool)
    requires forall k :: 0 <= k < |positions| ==> positions[k] < |faces|
    requires last < |faces|
    ensures ApplyAt(env, img, faces, positions + [last], source, upscale) ==
            env.swap(ApplyAt(env, img, faces, positions, source, upscale), faces[last], source, upscale)
  {
    assert (positions + [last])[..|positions|] == positions;
  }

  lemma {:induction false} SwapPrefixSeesOnlyRange(env: Env, img: Image, faces: seq<Face>, index: set<int>, index': set<int>, source: Face, upscale: bool, k: nat)
    requires k <= |faces|
    requires forall i :: 0 <= i < k ==> (i in index <==> i in index')
    ensures SwapPrefix(env, img, faces, index, source, upscale, k) == SwapPrefix(env, img, faces, index', source, upscale, k)
  {
    if k > 0 {
      SwapPrefixSeesOnlyRange(env, img, faces, index, index', source, upscale, k - 1);
    }
  }

  /** Selected positions outside the range of target faces have no effect. */
  lemma OutOfRangeIndicesIgnored(env: Env, referenceFace: Option<Face>, source: Face, targetImg: Image,
                                 index: set<int>, sameGender: bool, upscale: bool, computeSimilarity: bool, sortBySize: bool)
    ensures var n := |TargetFaces(env, source, targetImg, sameGender, sortBySize)|;
            var inRange := set i | i in index && 0 <= i < n;
            SwapFaceSpec(env, referenceFace, Some(source), targetImg, index, sameGender, upscale, computeSimilarity, sortBySize) ==
            SwapFaceSpec(env, referenceFace, Some(source), targetImg, inRange, sameGender, upscale, computeSimilarity, sortBySize)
  {
    var faces := TargetFaces(env, source, targetImg, sameGender, sortBySize);
    var n := |faces|;
    var inRange := set i | i in index && 0 <= i < n;
    SwapPrefixSeesOnlyRange(env, RgbToBgr(targetImg), faces, index, inRange, source, upscale, n);
    assert SwappedImage(env, source, targetImg, index, sameGender, upscale, sortBySize)
        == SwappedImage(env, source, targetImg, inRange, sameGender, upscale, sortBySize);
    var rf := ResultFaces(env, source, targetImg, index, sameGender, upscale, sortBySize);
    assert rf == ResultFaces(env, source, targetImg, inRange, sameGender, upscale, sortBySize);
    assert SimilarityMap(env.cosine, source, rf, index, n, |rf|) == SimilarityMap(env.cosine, source, rf, inRange, n, |rf|);
    if referenceFace.Some? {
      assert SimilarityMap(env.cosine, referenceFace.value, rf, index, n, |rf|)
          == SimilarityMap(env.cosine, referenceFace.value, rf, inRange, n, |rf|);
    }
  }

  lemma {:induction false} SwapPrefixUnselected(env: Env, img: Image, faces: seq<Face>, index: set<int>, source: Face, upscale: bool, k: nat)
    requires k <= |faces|
    requires forall i :: 0 <= i < k ==> i !in index
    ensures SwapPrefix(env, img, faces, index, source, upscale, k) == img
  {
    if k > 0 {
      SwapPrefixUnselected(env, img, faces, index, source, upscale, k - 1);
    }
  }

  /** When no selected position names a target face, the image comes back
      unchanged. */
  lemma NothingSelectedLeavesImage(env: Env, referenceFace: Option<Face>, source: Face, targetImg: Image,
                                   index: set<int>, sameGender: bool, upscale: bool, computeSimilarity: bool, sortBySize: bool)
    requires forall i :: i in index ==> i < 0 || i >= |TargetFaces(env, source, targetImg, sameGender, sortBySize)|
    ensures var r := SwapFaceSpec(env, referenceFace, Some(source), targetImg, index, sameGender, upscale, computeSimilarity, sortBySize);
            r.Ok? ==> r.value.image == targetImg
  {
    var faces := TargetFaces(env, source, targetImg, sameGender, sortBySize);
    SwapPrefixUnselected(env, RgbToBgr(targetImg), faces, index, source, upscale, |faces|);
    ColourRoundTrip(targetImg);
  }

  // ---------------------------------------------------------------------------
  // process_image_unit

  /** The identities a unit swaps in: every configured face in turn, or the one
      blended face when blending is on. With more than one configured face in
      blend mode, a missing reference or blended face raises, and a reference
      whose embedding equals the blend fails the assertion. */
  function Identities(unit: Unit, forceBlend: bool): (r: Result<seq<Option<Face>>>)
    ensures !unit.blendFaces && !forceBlend ==>
      r.Ok? && |r.value| == |unit.faces| && forall k :: 0 <= k < |unit.faces| ==> r.value[k] == Some(unit.faces[k])
    ensures (unit.blendFaces || forceBlend) && r.Ok? ==> r.value == [unit.blendedFaces]
    ensures r.Err? <==> (
      && (unit.blendFaces || forceBlend)
      && |unit.faces| > 1
      && (unit.referenceFace.None? || unit.blendedFaces.None? ||
          unit.referenceFace.value.embedding == unit.blendedFaces.value.embedding))
    ensures r == Err(AttributeError) <==>
      (unit.blendFaces || forceBlend) && |unit.faces| > 1 && (unit.referenceFace.None? || unit.blendedFaces.None?)
    ensures r == Err(AssertionError) <==>
      && (unit.blendFaces || forceBlend) && |unit.faces| > 1
      && unit.referenceFace.Some? && unit.blendedFaces.Some?
      && unit.referenceFace.value.embedding == unit.blendedFaces.value.embedding
  {
    if !unit.blendFaces && !forceBlend then
      Ok(seq(|unit.faces|, k requires 0 <= k < |unit.faces| => Some(unit.faces[k])))
    else if |unit.faces| > 1 && (unit.referenceFace.None? || unit.blendedFaces.None?) then Err(AttributeError)
    else if |unit.faces| > 1 && unit.referenceFace.value.embedding == unit.blendedFaces.value.embedding then Err(AssertionError)
    else Ok([unit.blendedFaces])
  }

  /** The similarity gate: kept when the check is off, or when some similarity
      was computed and every similarity and every reference similarity meets
      its minimum. */
  predicate Accepted(unit: Unit, res: ImageResult) {
    || !unit.checkSimilarity
    || (&& |res.similarity| > 0
        && (forall i :: i in res.similarity ==> res.similarity[i] >= unit.minSim)
        && (forall i :: i in res.refSimilarity ==> res.refSimilarity[i] >= unit.minRefSim))
  }

  /** The face similarity is measured against: the unit's reference face when
      it has one, otherwise the identity being swapped in. */
  function ReferenceFor(unit: Unit, identity: Option<Face>): Option<Face> {
    if unit.referenceFace.Some? then unit.referenceFace else identity
  }

  function SwapWith(env: Env, unit: Unit, image: Image, upscale: bool, identity: Option<Face>): Result<ImageResult> {
    SwapFaceSpec(env, ReferenceFor(unit, identity), identity, image, unit.facesIndex, unit.sameGender, upscale,
                 unit.computeSimilarity, unit.sortBySize)
  }

  /** The outputs of the unit's loop over `ids`, the first failure aborting. */
  function UnitSwaps(env: Env, unit: Unit, image: Image, info: Info, upscale: bool, ids: seq<Option<Face>>): Result<seq<Output>> {
    if ids == [] then Ok([])
    else
      match UnitSwaps(env, unit, image, info, upscale, ids[..|ids| - 1])
      case Err(e) => Err(e)
      case Ok(prefix) =>
        match SwapWith(env, unit, image, upscale, ids[|ids| - 1])
        case Err(e) => Err(e)
        case Ok(res) =>
          Ok(prefix + if Accepted(unit, res) then [(res.image, Annotated(info, res.similarity, res.refSimilarity))] else [])
  }

  /** What `process_image_unit` returns or raises. */
  function ProcessImageUnitSpec(env: Env, unit: Unit, image: Image, info: Info, upscale: bool, forceBlend: bool): Result<seq<Output>> {
    if !unit.enable then Ok([])
    else if env.isNsfw(image) then Ok([(image, info)])
    else
      match Identities(unit, forceBlend)
      case Err(e) => Err(e)
      case Ok(ids) => UnitSwaps(env, unit, image, info, upscale, ids)
  }

  /** `process_image_unit`: one swap per identity, each result kept when it
      passes the similarity gate. */
  method ProcessImageUnit(env: Env, unit: Unit, image: Image, info: Info, upscale: bool, forceBlend: bool)
    returns (r: Result<seq<Output>>)
    ensures r == ProcessImageUnitSpec(env, unit, image, info, upscale, forceBlend)
  {
    if !unit.enable {
      return Ok([]);
    }
    if env.isNsfw(image) {
      return Ok([(image, info)]);
    }
    var srcFaces: seq<Option<Face>>;
    if !unit.blendFaces && !forceBlend {
      srcFaces := seq(|unit.faces|, k requires 0 <= k < |unit.faces| => Some(unit.faces[k]));
    } else {
      srcFaces := [unit.blendedFaces];
      if |unit.faces| > 1 {
        if unit.referenceFace.None? || unit.blendedFaces.None? {
          return Err(AttributeError);
        }
        if unit.referenceFace.value.embedding == unit.blendedFaces.value.embedding {
          return Err(AssertionError);
        }
      }
    }
    assert Identities(unit, forceBlend) == Ok(srcFaces);
    r := SwapEachIdentity(env, unit, image, info, upscale, srcFaces);
  }

  /** The loop of `process_image_unit` over the identities. */
  method SwapEachIdentity(env: Env, unit: Unit, image: Image, info: Info, upscale: bool, srcFaces: seq<Option<Face>>)
    returns (r: Result<seq<Output>>)
    ensures r == UnitSwaps(env, unit, image, info, upscale, srcFaces)
  {
    var results: seq<Output> := [];
    assert srcFaces[..0] == [];
    for i := 0 to |srcFaces|
      invariant UnitSwaps(env, unit, image, info, upscale, srcFaces[..i]) == Ok(results)
    {
      var srcFace := srcFaces[i];
      var referenceFace := if unit.referenceFace.Some? then unit.referenceFace else srcFace;
      var result := SwapFace(env, referenceFace, srcFace, image, unit.facesIndex, unit.sameGender, upscale,
                             unit.computeSimilarity, unit.sortBySize);
      assert result == SwapWith(env, unit, image, upscale, srcFace);
      UnitSwapsStep(env, unit, image, info, upscale, srcFaces, i, results);
      if result.Err? {
        UnitSwapsPrefixFailure(env, unit, image, info, upscale, srcFaces, i + 1);
        return Err(result.error);
      }
      var res := result.value;
      if Accepted(unit, res) {
        results := results + [(res.image, Annotated(info, res.similarity, res.refSimilarity))];
      }
    }
    assert srcFaces[..|srcFaces|] == srcFaces;
    return Ok(results);
  }

  lemma UnitSwapsStep(env: Env, unit: Unit, image: Image, info: Info, upscale: bool, ids: seq<Option<Face>>, i: nat, prefix: seq<Output>)
    requires i < |ids|
    requires UnitSwaps(env, unit, image, info, upscale, ids[..i]) == Ok(prefix)
    ensures var res := SwapWith(env, unit, image, upscale, ids[i]);
            var next := UnitSwaps(env, unit, image, info, upscale, ids[..i + 1]);
            && (res.Err? ==> next == Err(res.error))
            && (res.Ok? && Accepted(unit, res.value) ==>
                 next == Ok(prefix + [(res.value.image, Annotated(info, res.value.similarity, res.value.refSimilarity))]))
            && (res.Ok? && !Accepted(unit, res.value) ==> next == Ok(prefix))
  {
    assert ids[..i + 1][..i] == ids[..i];
    assert prefix + [] == prefix;
  }

  /** A failure in the loop is the failure of the whole unit. */
  lemma {:induction false} UnitSwapsPrefixFailure(env: Env, unit: Unit, image: Image, info: Info, upscale: bool, ids: seq<Option<Face>>, k: nat)
    requires k <= |ids|
    requires UnitSwaps(env, unit, image, info, upscale, ids[..k]).Err?
    ensures UnitSwaps(env, unit, image, info, upscale, ids) == UnitSwaps(env, unit, image, info, upscale, ids[..k])
    decreases |ids| - k
  {
    if k < |ids| {
      assert ids[..k + 1][..k] == ids[..k];
      UnitSwapsPrefixFailure(env, unit, image, info, upscale, ids, k + 1);
    } else {
      assert ids[..k] == ids;
    }
  }

  /** An output of a unit comes from a swap with one of its identities that
      passed the gate, annotated with that swap's similarity maps. */
  predicate FromAcceptedSwap(env: Env, unit: Unit, image: Image, info: Info, upscale: bool, ids: seq<Option<Face>>, o: Output) {
    && o.1.Annotated?
    && o.1.previous == info
    && Accepted(unit, ImageResult(o.0, o.1.similarity, o.1.refSimilarity))
    && exists k :: 0 <= k < |ids| && SwapWith(env, unit, image, upscale, ids[k]) == Ok(ImageResult(o.0, o.1.similarity, o.1.refSimilarity))
  }

  /** A swap with `identity` that succeeds and passes the gate is among `outputs`. */
  predicate KeptIfAccepted(env: Env, unit: Unit, image: Image, info: Info, upscale: bool, identity: Option<Face>, outputs: seq<Output>) {
    var res := SwapWith(env, unit, image, upscale, identity);
    res.Ok? && Accepted(unit, res.value) ==>
      (res.value.image, Annotated(info, res.value.similarity, res.value.refSimilarity)) in outputs
  }

  /** A unit's loop keeps exactly the swaps that pass the gate: every output
      comes from an accepted swap with one of the identities, and every
      accepted swap is output. */
  lemma {:induction false} UnitSwapsOutputs(env: Env, unit: Unit, image: Image, info: Info, upscale: bool, ids: seq<Option<Face>>)
    ensures var r := UnitSwaps(env, unit, image, info, upscale, ids);
      r.Ok? ==>
        && |r.value| <= |ids|
        && (!unit.checkSimilarity ==> |r.value| == |ids|)
        && (forall o :: o in r.value ==> FromAcceptedSwap(env, unit, image, info, upscale, ids, o))
        && forall k :: 0 <= k < |ids| ==> KeptIfAccepted(env, unit, image, info, upscale, ids[k], r.value)
  {
    UnitSwapsKeepsAccepted(env, unit, image, info, upscale, ids);
    if ids != [] {
      var init := ids[..|ids| - 1];
      UnitSwapsOutputs(env, unit, image, info, upscale, init);
      var r := UnitSwaps(env, unit, image, info, upscale, ids);
      if r.Ok? {
        var prefix := UnitSwaps(env, unit, image, info, upscale, init).value;
        var res := SwapWith(env, unit, image, upscale, ids[|ids| - 1]).value;

        forall o | o in r.value ensures FromAcceptedSwap(env, unit, image, info, upscale, ids, o) {
          if o in prefix {
            assert FromAcceptedSwap(env, unit, image, info, upscale, init, o);
            var k :| 0 <= k < |init| && SwapWith(env, unit, image, upscale, init[k]) == Ok(ImageResult(o.0, o.1.similarity, o.1.refSimilarity));
            assert ids[k] == init[k];
          } else {
            assert o == (res.image, Annotated(info, res.similarity, res.refSimilarity));
            assert ids[|ids| - 1] == ids[|ids| - 1];
          }
        }
      }
    }
  }

  lemma {:induction false} UnitSwapsKeepsAccepted(env: Env, unit: Unit, image: Image, info: Info, upscale: bool, ids: seq<Option<Face>>)
    ensures var r := UnitSwaps(env, unit, image, info, upscale, ids);
      r.Ok? ==> forall k :: 0 <= k < |ids| ==> KeptIfAccepted(env, unit, image, info, upscale, ids[k], r.value)
  {
    if ids != [] {
      var init := ids[..|ids| - 1];
      UnitSwapsKeepsAccepted(env, unit, image, info, upscale, init);
      var r := UnitSwaps(env, unit, image, info, upscale, ids);
      if r.Ok? {
        var prefix := UnitSwaps(env, unit, image, info, upscale, init).value;
        assert prefix <= r.value;
        forall k | 0 <= k < |ids| ensures KeptIfAccepted(env, unit, image, info, upscale, ids[k], r.value) {
          if k < |init| {
            assert ids[k] == init[k];
            assert KeptIfAccepted(env, unit, image, info, upscale, init[k], prefix);
          }
        }
      }
    }
  }

  /** The outputs of the earlier identities come first: the loop over a
      prefix of the identities yields a prefix of the outputs. */
  lemma {:induction false} UnitSwapsInIdentityOrder(env: Env, unit: Unit, image: Image, info: Info, upscale: bool, ids: seq<Option<Face>>, k: nat)
    requires k <= |ids|
    ensures var r := UnitSwaps(env, unit, image, info, upscale, ids);
      r.Ok? ==>
        var p := UnitSwaps(env, unit, image, info, upscale, ids[..k]);
        p.Ok? && p.value <= r.value
    decreases |ids| - k
  {
    if k == |ids| {
      assert ids[..k] == ids;
    } else {
      UnitSwapsInIdentityOrder(env, unit, image, info, upscale, ids, k + 1);
      assert ids[..k + 1][..k] == ids[..k];
    }
  }

  /** A disabled unit yields nothing and an unsafe image is passed through
      alone. Otherwise a unit yields at most one output per identity (one in
      blend mode, one per configured face otherwise), exactly one per identity
      when the similarity check is off. Every output is the result of a swap
      with one of its identities that passed the gate, and every such swap
      is output. */
  lemma UnitOutputs(env: Env, unit: Unit, image: Image, info: Info, upscale: bool, forceBlend: bool)
    ensures var r := ProcessImageUnitSpec(env, unit, image, info, upscale, forceBlend);
      && (!unit.enable ==> r == Ok([]))
      && (unit.enable && env.isNsfw(image) ==> r == Ok([(image, info)]))
      && (unit.enable && !env.isNsfw(image) && r.Ok? ==>
           var ids := Identities(unit, forceBlend).value;
           var n := if unit.blendFaces || forceBlend then 1 else |unit.faces|;
           && |ids| == n
           && |r.value| <= n
           && (!unit.checkSimilarity ==> |r.value| == n)
           && (forall o :: o in r.value ==> FromAcceptedSwap(env, unit, image, info, upscale, ids, o))
           && forall k :: 0 <= k < |ids| ==> KeptIfAccepted(env, unit, image, info, upscale, ids[k], r.value))
  {
    if unit.enable && !env.isNsfw(image) && Identities(unit, forceBlend).Ok? {
      UnitSwapsOutputs(env, unit, image, info, upscale, Identities(unit, forceBlend).value);
    }
  }

  /** With the check on, every output of an enabled unit on a safe image
      carries the similarity maps of its swap, some similarity was computed
      and all of them meet the unit's minimums; conversely every swap whose
      similarities meet the minimums is output. */
  lemma UnitOutputsPassGate(env: Env, unit: Unit, image: Image, info: Info, upscale: bool, forceBlend: bool)
    requires unit.enable && !env.isNsfw(image) && unit.checkSimilarity
    ensures var r := ProcessImageUnitSpec(env, unit, image, info, upscale, forceBlend);
      r.Ok? ==> forall o :: o in r.value ==>
        && o.1.Annotated? && o.1.previous == info
        && |o.1.similarity| > 0
        && (forall i :: i in o.1.similarity ==> o.1.similarity[i] >= unit.minSim)
        && (forall i :: i in o.1.refSimilarity ==> o.1.refSimilarity[i] >= unit.minRefSim)
    ensures var r := ProcessImageUnitSpec(env, unit, image, info, upscale, forceBlend);
      r.Ok? ==>
        var ids := Identities(unit, forceBlend).value;
        forall k :: 0 <= k < |ids| ==>
          var res := SwapWith(env, unit, image, upscale, ids[k]);
          res.Ok? && |res.value.similarity| > 0
          && (forall i :: i in res.value.similarity ==> res.value.similarity[i] >= unit.minSim)
          && (forall i :: i in res.value.refSimilarity ==> res.value.refSimilarity[i] >= unit.minRefSim)
          ==> (res.value.image, Annotated(info, res.value.similarity, res.value.refSimilarity)) in r.value
  {
    UnitOutputs(env, unit, image, info, upscale, forceBlend);
  }

  /** With the check on but similarity not computed, every result is dropped:
      the similarity map is empty. */
  lemma CheckWithoutComputeDropsAll(env: Env, unit: Unit, image: Image, info: Info, upscale: bool, forceBlend: bool)
    requires unit.enable && !env.isNsfw(image) && unit.checkSimilarity && !unit.computeSimilarity
    ensures var r := ProcessImageUnitSpec(env, unit, image, info, upscale, forceBlend);
      r.Ok? ==> r.value == []
  {
    var r := ProcessImageUnitSpec(env, unit, image, info, upscale, forceBlend);
    assert r.Ok? && r.value != [] ==> r.value[0] in r.value;
    UnitOutputsPassGate(env, unit, image, info, upscale, forceBlend);
    UncomputedSimilarityIsEmpty(env, unit, image, info, upscale, forceBlend);
  }

  /** When similarity is not computed, every output of an enabled unit on a
      safe image carries empty similarity maps. */
  lemma UncomputedSimilarityIsEmpty(env: Env, unit: Unit, image: Image, info: Info, upscale: bool, forceBlend: bool)
    requires unit.enable && !env.isNsfw(image) && !unit.computeSimilarity
    ensures var r := ProcessImageUnitSpec(env, unit, image, info, upscale, forceBlend);
      r.Ok? ==> forall o :: o in r.value ==> o.1.Annotated? && o.1.similarity == map[] && o.1.refSimilarity == map[]
  {
    var r := ProcessImageUnitSpec(env, unit, image, info, upscale, forceBlend);
    UnitOutputs(env, unit, image, info, upscale, forceBlend);
    if r.Ok? {
      forall o | o in r.value ensures o.1.Annotated? && o.1.similarity == map[] && o.1.refSimilarity == map[] {
        var ids := Identities(unit, forceBlend).value;
        var k :| 0 <= k < |ids| && SwapWith(env, unit, image, upscale, ids[k]) == Ok(ImageResult(o.0, o.1.similarity, o.1.refSimilarity));
        SwapFaceContract(env, ReferenceFor(unit, ids[k]), ids[k], image, unit.facesIndex, unit.sameGender, upscale,
                         unit.computeSimilarity, unit.sortBySize);
      }
    }
  }

  /** Without a reference face, similarity is measured against the identity
      swapped in, so both maps of every output agree. */
  lemma NoReferenceScoresAgainstIdentity(env: Env, unit: Unit, image: Image, info: Info, upscale: bool, forceBlend: bool)
    requires unit.enable && !env.isNsfw(image) && unit.referenceFace.None?
    ensures var r := ProcessImageUnitSpec(env, unit, image, info, upscale, forceBlend);
      r.Ok? ==> forall o :: o in r.value ==> o.1.Annotated? && o.1.refSimilarity == o.1.similarity
  {
    var r := ProcessImageUnitSpec(env, unit, image, info, upscale, forceBlend);
    if r.Ok? {
      var ids := Identities(unit, forceBlend).value;
      assert r == UnitSwaps(env, unit, image, info, upscale, ids);
      UnitSwapsOutputs(env, unit, image, info, upscale, ids);
      forall o | o in r.value ensures o.1.Annotated? && o.1.refSimilarity == o.1.similarity {
        var k :| 0 <= k < |ids| && SwapWith(env, unit, image, upscale, ids[k]) == Ok(ImageResult(o.0, o.1.similarity, o.1.refSimilarity));
        assert ReferenceFor(unit, ids[k]) == ids[k];
      }
    }
  }

  /** An enabled unit that enumerates its faces without a similarity check
      never fails and yields one output per configured face. */
  lemma EnumeratingUnitFansOut(env: Env, unit: Unit, image: Image, info: Info, upscale: bool)
    requires unit.enable && !env.isNsfw(image) && !unit.blendFaces && !unit.checkSimilarity
    ensures var r := ProcessImageUnitSpec(env, unit, image, info, upscale, false);
      r.Ok? && |r.value| == |unit.faces|
  {
    var ids := Identities(unit, false).value;
    EnumerationNeverFails(env, unit, image, info, upscale, ids);
    UnitOutputs(env, unit, image, info, upscale, false);
  }

  lemma {:induction false} EnumerationNeverFails(env: Env, unit: Unit, image: Image, info: Info, upscale: bool, ids: seq<Option<Face>>)
    requires forall k :: 0 <= k < |ids| ==> ids[k].Some?
    ensures UnitSwaps(env, unit, image, info, upscale, ids).Ok?
  {
    if ids != [] {
      EnumerationNeverFails(env, unit, image, info, upscale, ids[..|ids| - 1]);
      var id := ids[|ids| - 1];
      SwapFaceContract(env, ReferenceFor(unit, id), id, image, unit.facesIndex, unit.sameGender, upscale,
                       unit.computeSimilarity, unit.sortBySize);
    }
  }

  // ---------------------------------------------------------------------
  // process_images_units: apply the first unit to every image, then the
  // remaining units to each image's outputs, keeping the first unit's
  // outputs when the rest of the chain produces nothing.
  // ---------------------------------------------------------------------

  /** The outputs of the chain of units on a list of images; None when no
      unit is left. */
  function ChainSpec(env: Env, units: seq<Unit>, images: seq<Output>, upscale: bool, forceBlend: bool): Result<Option<seq<Output>>>
    decreases |units|, 1, 0
  {
    if |units| == 0 then Ok(None)
    else
      match FoldImages(env, units, images, upscale, forceBlend)
      case Err(e) => Err(e)
      case Ok(out) => Ok(Some(out))
  }

  /** The chain's outputs for a prefix of the images, in image order; the
      first exception aborts the whole call. */
  function FoldImages(env: Env, units: seq<Unit>, images: seq<Output>, upscale: bool, forceBlend: bool): Result<seq<Output>>
    requires |units| > 0
    decreases |units|, 0, |images|
  {
    if images == [] then Ok([])
    else
      match FoldImages(env, units, images[..|images| - 1], upscale, forceBlend)
      case Err(e) => Err(e)
      case Ok(acc) =>
        match Chunk(env, units, images[|images| - 1], upscale, forceBlend)
        case Err(e) => Err(e)
        case Ok(c) => Ok(acc + c)
  }

  /** The outputs one image contributes: what the remaining units make of
      the first unit's outputs, or those outputs themselves when the rest
      yields None or nothing. */
  function Chunk(env: Env, units: seq<Unit>, item: Output, upscale: bool, forceBlend: bool): Result<seq<Output>>
    requires |units| > 0
    decreases |units|, 0, 0
  {
    match ProcessImageUnitSpec(env, units[0], item.0, item.1, upscale, forceBlend)
    case Err(e) => Err(e)
    case Ok(swapped) =>
      match ChainSpec(env, units[1..], swapped, upscale, forceBlend)
      case Err(e) => Err(e)
      case Ok(nexts) => Ok(if nexts.Some? && nexts.value != [] then nexts.value else swapped)
  }

  method ProcessImagesUnits(env: Env, units: seq<Unit>, images: seq<Output>, upscale: bool, forceBlend: bool)
    returns (r: Result<Option<seq<Output>>>)
    ensures r == ChainSpec(env, units, images, upscale, forceBlend)
    decreases |units|
  {
    if |units| == 0 {
      return Ok(None);
    }
    var processed: seq<Output> := [];
    assert images[..0] == [];
    for i := 0 to |images|
      invariant FoldImages(env, units, images[..i], upscale, forceBlend) == Ok(processed)
    {
      assert images[..i + 1][..i] == images[..i];
      var swapped := ProcessImageUnit(env, units[0], images[i].0, images[i].1, upscale, forceBlend);
      if swapped.Err? {
        FoldImagesPrefixFailure(env, units, images, upscale, forceBlend, i + 1);
        return Err(swapped.error);
      }
      var nexts := ProcessImagesUnits(env, units[1..], swapped.value, upscale, forceBlend);
      if nexts.Err? {
        FoldImagesPrefixFailure(env, units, images, upscale, forceBlend, i + 1);
        return Err(nexts.error);
      }
      if nexts.value.Some? && nexts.value.value != [] {
        processed := processed + nexts.value.value;
      } else {
        processed := processed + swapped.value;
      }
    }
    assert images[..|images|] == images;
    return Ok(Some(processed));
  }

  /** The outputs of the earlier images come first: folding a prefix of the
      images yields a prefix of the outputs. */
  lemma {:induction false} FoldImagesInImageOrder(env: Env, units: seq<Unit>, images: seq<Output>, upscale: bool, forceBlend: bool, k: nat)
    requires |units| > 0 && k <= |images|
    ensures var r := FoldImages(env, units, images, upscale, forceBlend);
      r.Ok? ==>
        var p := FoldImages(env, units, images[..k], upscale, forceBlend);
        p.Ok? && p.value <= r.value
    decreases |images| - k
  {
    if k == |images| {
      assert images[..k] == images;
    } else {
      FoldImagesInImageOrder(env, units, images, upscale, forceBlend, k + 1);
      assert images[..k + 1][..k] == images[..k];
    }
  }

  lemma {:induction false} FoldImagesPrefixFailure(env: Env, units: seq<Unit>, images: seq<Output>, upscale: bool, forceBlend: bool, k: nat)
    requires |units| > 0 && k <= |images|
    requires FoldImages(env, units, images[..k], upscale, forceBlend).Err?
    ensures FoldImages(env, units, images, upscale, forceBlend) == FoldImages(env, units, images[..k], upscale, forceBlend)
    decreases |images| - k
  {
    if k < |images| {
      assert images[..k + 1][..k] == images[..k];
      FoldImagesPrefixFailure(env, units, images, upscale, forceBlend, k + 1);
    } else {
      assert images[..k] == images;
    }
  }

  /** A chain is plain when no image is judged unsafe and every unit is
      enabled, enumerates its faces and does not check similarity. */
  ghost predicate Plain(env: Env, units: seq<Unit>) {
    && (forall img :: !env.isNsfw(img))
    && forall k :: 0 <= k < |units| ==> units[k].enable && !units[k].blendFaces && !units[k].checkSimilarity
  }

  /** How many outputs a plain chain makes of one image: each unit multiplies
      by its number of faces, except that a unit yielding nothing leaves the
      previous unit's outputs in place. */
  function Yield(units: seq<Unit>): nat {
    if units == [] then 1
    else
      var rest := Yield(units[1..]);
      |units[0].faces| * (if rest == 0 then 1 else rest)
  }

  /** A plain chain of at least one unit never fails and yields Yield(units)
      outputs per input image. */
  lemma {:induction false} ChainCount(env: Env, units: seq<Unit>, images: seq<Output>, upscale: bool)
    requires Plain(env, units)
    ensures var r := ChainSpec(env, units, images, upscale, false);
      && r.Ok?
      && (r.value.None? <==> |units| == 0)
      && (|units| > 0 ==> |r.value.value| == |images| * Yield(units))
    decreases |units|, 1, 0
  {
    if |units| > 0 {
      FoldCount(env, units, images, upscale);
    }
  }

  lemma {:induction false} FoldCount(env: Env, units: seq<Unit>, images: seq<Output>, upscale: bool)
    requires |units| > 0 && Plain(env, units)
    ensures var r := FoldImages(env, units, images, upscale, false);
      r.Ok? && |r.value| == |images| * Yield(units)
    decreases |units|, 0, |images|
  {
    if images != [] {
      var n := |images|;
      FoldCount(env, units, images[..n - 1], upscale);
      ChunkCount(env, units, images[n - 1], upscale);
      MulSucc(n - 1, Yield(units));
    }
  }

  lemma {:induction false} ChunkCount(env: Env, units: seq<Unit>, item: Output, upscale: bool)
    requires |units| > 0 && Plain(env, units)
    ensures var r := Chunk(env, units, item, upscale, false);
      r.Ok? && |r.value| == Yield(units)
    decreases |units|, 0, 0
  {
    var r0 := ProcessImageUnitSpec(env, units[0], item.0, item.1, upscale, false);
    EnumeratingUnitFansOut(env, units[0], item.0, item.1, upscale);
    var swapped := r0.value;
    var n0 := |units[0].faces|;
    var rest := units[1..];
    assert Plain(env, rest) by {
      forall k | 0 <= k < |rest| ensures rest[k].enable && !rest[k].blendFaces && !rest[k].checkSimilarity {
        assert rest[k] == units[k + 1];
      }
    }
    ChainCount(env, rest, swapped, upscale);
    var c := ChainSpec(env, rest, swapped, upscale, false);
    var y := Yield(rest);
    assert Yield(units) == n0 * (if y == 0 then 1 else y);
    assert Chunk(env, units, item, upscale, false) == Ok(if c.value.Some? && c.value.value != [] then c.value.value else swapped);
    if |rest| > 0 {
      ProductZero(n0, y);
    }
  }

  lemma MulSucc(m: nat, y: nat)
    ensures m * y + y == (m + 1) * y
  {
  }

  lemma ProductZero(a: nat, b: nat)
    ensures a * b == 0 <==> a == 0 || b == 0
  {
    if a != 0 && b != 0 {
      assert a * b >= 1 * b;
    }
  }

  /** Two plain units with two and three faces make six images of one. */
  lemma ChainOfTwoAndThreeMakesSix(env: Env, u1: Unit, u2: Unit, image: Image, upscale: bool)
    requires Plain(env, [u1, u2]) && |u1.faces| == 2 && |u2.faces| == 3
    ensures var r := ChainSpec(env, [u1, u2], [(image, NoInfo)], upscale, false);
      r.Ok? && r.value.Some? && |r.value.value| == 6
  {
    ChainCount(env, [u1, u2], [(image, NoInfo)], upscale);
    assert [u1, u2][1..] == [u2];
    assert [u2][1..] == [];
    assert Yield([u2]) == 3;
    assert Yield([u1, u2]) == 6;
  }

  /** A disabled unit in first place yields nothing for any image, and the
      units after it cannot bring the images back. */
  lemma {:induction false} DisabledFirstUnitDropsAll(env: Env, units: seq<Unit>, images: seq<Output>, upscale: bool, forceBlend: bool)
    requires |units| > 0 && !units[0].enable
    ensures ChainSpec(env, units, images, upscale, forceBlend) == Ok(Some([]))
  {
    FoldOfDisabledIsEmpty(env, units, images, upscale, forceBlend);
  }

  lemma {:induction false} FoldOfDisabledIsEmpty(env: Env, units: seq<Unit>, images: seq<Output>, upscale: bool, forceBlend: bool)
    requires |units| > 0 && !units[0].enable
    ensures FoldImages(env, units, images, upscale, forceBlend) == Ok([])
  {
    if images != [] {
      var item := images[|images| - 1];
      FoldOfDisabledIsEmpty(env, units, images[..|images| - 1], upscale, forceBlend);
      assert ProcessImageUnitSpec(env, units[0], item.0, item.1, upscale, forceBlend) == Ok([]);
      if |units| > 1 {
        assert FoldImages(env, units[1..], [], upscale, forceBlend) == Ok([]);
      }
      assert Chunk(env, units, item, upscale, forceBlend) == Ok([]);
      var none: seq<Output> := [];
      assert none + none == none;
    }
  }

  // ---------------------------------------------------------------------
  // batch_process: run the enabled units on each source image, enhance
  // every output, and collect them; any exception makes the result None.
  // ---------------------------------------------------------------------

  predicate IsEnabled(u: Unit) {
    u.enable
  }

  /** The enabled units, in their original order: the unit at position k of
      the result is the k-th enabled unit of `units`. */
  function EnabledUnits(units: seq<Unit>): (r: seq<Unit>)
    ensures |r| <= |units|
    ensures forall u :: u in r <==> u in units && u.enable
    ensures var p := Positions(units, IsEnabled);
            |r| == |p| && forall k :: 0 <= k < |r| ==> r[k] == units[p[k]]
  {
    SelectAtPositions(units, IsEnabled);
    Select(units, IsEnabled)
  }

  /** The post-processed images of one chain's outputs. */
  function Enhanced(env: Env, out: seq<Output>): (r: seq<Image>)
    ensures |r| == |out|
    ensures forall k :: 0 <= k < |out| ==> r[k] == env.enhance(out[k].0)
  {
    if out == [] then [] else [env.enhance(out[0].0)] + Enhanced(env, out[1..])
  }

  /** The enhanced images made of one source image, None when the chain raised. */
  function SourceOutputs(env: Env, units: seq<Unit>, src: Image): Option<seq<Image>> {
    match ChainSpec(env, units, [(src, NoInfo)], Settings.UpscaledSwapper(env.opts), false)
    case Err(_) => None
    case Ok(None) => None
    case Ok(Some(out)) => Some(Enhanced(env, out))
  }

  /** The images made of a prefix of the sources, in source order. */
  function BatchImages(env: Env, units: seq<Unit>, srcs: seq<Image>): Option<seq<Image>> {
    if srcs == [] then Some([])
    else
      match BatchImages(env, units, srcs[..|srcs| - 1])
      case None => None
      case Some(acc) =>
        match SourceOutputs(env, units, srcs[|srcs| - 1])
        case None => None
        case Some(imgs) => Some(acc + imgs)
  }

  function BatchSpec(env: Env, srcs: Option<seq<Image>>, units: seq<Unit>): Option<seq<Image>> {
    var enabled := EnabledUnits(units);
    if srcs.None? || |enabled| == 0 then None
    else BatchImages(env, enabled, srcs.value)
  }

  method BatchProcess(env: Env, srcs: Option<seq<Image>>, units: seq<Unit>) returns (r: Option<seq<Image>>)
    ensures r == BatchSpec(env, srcs, units)
  {
    var enabled := EnabledUnits(units);
    if srcs.None? || |enabled| == 0 {
      return None;
    }
    var sources := srcs.value;
    var upscale := Settings.UpscaledSwapper(env.opts);
    var resultImages: seq<Image> := [];
    assert sources[..0] == [];
    for i := 0 to |sources|
      invariant BatchImages(env, enabled, sources[..i]) == Some(resultImages)
    {
      assert sources[..i + 1][..i] == sources[..i];
      var swapped := ProcessImagesUnits(env, enabled, [(sources[i], NoInfo)], upscale, false);
      if swapped.Err? || swapped.value.None? {
        BatchPrefixFailure(env, enabled, sources, i + 1);
        return None;
      }
      var out := swapped.value.value;
      var current := EnhanceAll(env, out);
      resultImages := resultImages + current;
    }
    assert sources[..|sources|] == sources;
    return Some(resultImages);
  }

  /** The enhancement loop of `batch_process`: the images of the outputs,
      each replaced in place by its enhanced version. */
  method EnhanceAll(env: Env, out: seq<Output>) returns (current: seq<Image>)
    ensures current == Enhanced(env, out)
  {
    current := [];
    if |out| > 0 {
      current := seq(|out|, k requires 0 <= k < |out| => out[k].0);
    }
    for k := 0 to |current|
      invariant |current| == |out|
      invariant forall j :: 0 <= j < k ==> current[j] == env.enhance(out[j].0)
      invariant forall j :: k <= j < |current| ==> current[j] == out[j].0
    {
      current := current[k := env.enhance(current[k])];
    }
  }

  lemma {:induction false} BatchPrefixFailure(env: Env, units: seq<Unit>, srcs: seq<Image>, k: nat)
    requires k <= |srcs|
    requires BatchImages(env, units, srcs[..k]).None?
    ensures BatchImages(env, units, srcs).None?
    decreases |srcs| - k
  {
    if k < |srcs| {
      assert srcs[..k + 1][..k] == srcs[..k];
      BatchPrefixFailure(env, units, srcs, k + 1);
    } else {
      assert srcs[..k] == srcs;
    }
  }

  /** The outputs of the chain on one source image, or none when it raised. */
  function ChainOutputs(env: Env, units: seq<Unit>, src: Image): seq<Output> {
    match ChainSpec(env, units, [(src, NoInfo)], Settings.UpscaledSwapper(env.opts), false)
    case Ok(Some(out)) => out
    case _ => []
  }

  /** Collecting over the sources fails exactly when the chain raises on one
      of them; otherwise every collected image is the enhanced image of an
      output of the chain on one of the sources. */
  lemma {:induction false} BatchImagesOutcome(env: Env, units: seq<Unit>, srcs: seq<Image>)
    requires |units| > 0
    ensures var r := BatchImages(env, units, srcs);
      && (r.None? <==> exists k :: 0 <= k < |srcs| && ChainSpec(env, units, [(srcs[k], NoInfo)], Settings.UpscaledSwapper(env.opts), false).Err?)
      && (r.Some? ==> forall img :: img in r.value ==>
            exists k, j :: 0 <= k < |srcs| && 0 <= j < |ChainOutputs(env, units, srcs[k])| &&
                           img == env.enhance(ChainOutputs(env, units, srcs[k])[j].0))
  {
    if srcs != [] {
      var init := srcs[..|srcs| - 1];
      var n := |srcs| - 1;
      BatchImagesOutcome(env, units, init);
      var last := ChainSpec(env, units, [(srcs[n], NoInfo)], Settings.UpscaledSwapper(env.opts), false);
      assert last.Ok? ==> last.value.Some?;
      assert forall k :: 0 <= k < |init| ==> init[k] == srcs[k];
      var r := BatchImages(env, units, srcs);
      if r.Some? {
        var acc := BatchImages(env, units, init).value;
        var out := last.value.value;
        assert ChainOutputs(env, units, srcs[n]) == out;
        forall img | img in r.value
          ensures exists k, j :: 0 <= k < |srcs| && 0 <= j < |ChainOutputs(env, units, srcs[k])| &&
                                 img == env.enhance(ChainOutputs(env, units, srcs[k])[j].0)
        {
          if img in acc {
            var k, j :| 0 <= k < |init| && 0 <= j < |ChainOutputs(env, units, init[k])| &&
                        img == env.enhance(ChainOutputs(env, units, init[k])[j].0);
            assert init[k] == srcs[k];
          } else {
            var j :| 0 <= j < |out| && Enhanced(env, out)[j] == img;
            assert img == env.enhance(ChainOutputs(env, units, srcs[n])[j].0);
          }
        }
      }
    }
  }

  /** The enhanced outputs of the chain on each source, concatenated in
      source order. */
  function AllEnhanced(env: Env, units: seq<Unit>, srcs: seq<Image>): seq<Image> {
    if srcs == [] then []
    else Enhanced(env, ChainOutputs(env, units, srcs[0])) + AllEnhanced(env, units, srcs[1..])
  }

  lemma {:induction false} AllEnhancedSnoc(env: Env, units: seq<Unit>, srcs: seq<Image>, x: Image)
    ensures AllEnhanced(env, units, srcs + [x]) == AllEnhanced(env, units, srcs) + Enhanced(env, ChainOutputs(env, units, x))
  {
    if srcs == [] {
      assert srcs + [x] == [x];
      assert [x][1..] == [];
    } else {
      assert (srcs + [x])[0] == srcs[0];
      assert (srcs + [x])[1..] == srcs[1..] + [x];
      AllEnhancedSnoc(env, units, srcs[1..], x);
    }
  }

  lemma {:induction false} AllEnhancedContains(env: Env, units: seq<Unit>, srcs: seq<Image>, k: nat, j: nat)
    requires k < |srcs| && j < |ChainOutputs(env, units, srcs[k])|
    ensures env.enhance(ChainOutputs(env, units, srcs[k])[j].0) in AllEnhanced(env, units, srcs)
  {
    var head := Enhanced(env, ChainOutputs(env, units, srcs[0]));
    if k == 0 {
      assert head[j] == env.enhance(ChainOutputs(env, units, srcs[0])[j].0);
    } else {
      assert srcs[1..][k - 1] == srcs[k];
      AllEnhancedContains(env, units, srcs[1..], k - 1, j);
    }
  }

  /** When no chain raises, the collected images are exactly the enhanced
      outputs of the chain on each source, source by source and output by
      output; in particular every enhanced output of every source is
      collected. */
  lemma {:induction false} BatchImagesComplete(env: Env, units: seq<Unit>, srcs: seq<Image>)
    ensures var r := BatchImages(env, units, srcs);
      r.Some? ==>
        && r.value == AllEnhanced(env, units, srcs)
        && forall k, j :: 0 <= k < |srcs| && 0 <= j < |ChainOutputs(env, units, srcs[k])| ==>
             env.enhance(ChainOutputs(env, units, srcs[k])[j].0) in r.value
  {
    var r := BatchImages(env, units, srcs);
    if srcs != [] && r.Some? {
      var n := |srcs| - 1;
      var init := srcs[..n];
      BatchImagesComplete(env, units, init);
      var acc := BatchImages(env, units, init).value;
      var imgs := SourceOutputs(env, units, srcs[n]).value;
      assert imgs == Enhanced(env, ChainOutputs(env, units, srcs[n]));
      assert srcs == init + [srcs[n]];
      AllEnhancedSnoc(env, units, init, srcs[n]);
    }
    if r.Some? {
      forall k, j | 0 <= k < |srcs| && 0 <= j < |ChainOutputs(env, units, srcs[k])|
        ensures env.enhance(ChainOutputs(env, units, srcs[k])[j].0) in r.value
      {
        AllEnhancedContains(env, units, srcs, k, j);
      }
    }
  }

  /** batch_process returns None exactly when there are no sources, no unit
      is enabled, or the chain raises on some source. */
  lemma BatchNoneIff(env: Env, srcs: Option<seq<Image>>, units: seq<Unit>)
    ensures var enabled := EnabledUnits(units);
      BatchSpec(env, srcs, units).None? <==>
        (|| srcs.None?
         || enabled == []
         || exists k :: 0 <= k < |srcs.value| &&
              ChainSpec(env, enabled, [(srcs.value[k], NoInfo)], Settings.UpscaledSwapper(env.opts), false).Err?)
  {
    if srcs.Some? && EnabledUnits(units) != [] {
      BatchImagesOutcome(env, EnabledUnits(units), srcs.value);
    }
  }

  /** With plain enabled units, every source contributes Yield(enabled)
      enhanced images. */
  lemma {:induction false} BatchCount(env: Env, units: seq<Unit>, srcs: seq<Image>)
    requires |units| > 0 && Plain(env, units)
    ensures var r := BatchImages(env, units, srcs);
      r.Some? && |r.value| == |srcs| * Yield(units)
  {
    if srcs != [] {
      var n := |srcs|;
      var y := Yield(units);
      BatchCount(env, units, srcs[..n - 1]);
      SourceCount(env, units, srcs[n - 1]);
      var acc := BatchImages(env, units, srcs[..n - 1]).value;
      var last := SourceOutputs(env, units, srcs[n - 1]).value;
      assert BatchImages(env, units, srcs) == Some(acc + last);
      assert |acc + last| == (n - 1) * y + y;
      MulSucc(n - 1, y);
    }
  }

  lemma SourceCount(env: Env, units: seq<Unit>, src: Image)
    requires |units| > 0 && Plain(env, units)
    ensures var r := SourceOutputs(env, units, src);
      r.Some? && |r.value| == Yield(units)
  {
    ChainCount(env, units, [(src, NoInfo)], Settings.UpscaledSwapper(env.opts));
  }
}
