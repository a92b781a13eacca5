/** The face-level helpers of the swapper: the similarity score, list lookup with
    a default, the face locator with detection-size back-off and its two
    orderings, and the identity blender. */
module Faces {
  import opened Outcomes
  import opened Images

  datatype Gender = Female | Male | Unknown

  /** A bounding box (x0, y0, x1, y1). */
  datatype BBox = BBox(x0: real, y0: real, x1: real, y1: real)

  /** A face record. Faces built by the blender carry no bounding box and no
      landmarks. */
  datatype Face = Face(bbox: Option<BBox>, kps: seq<real>, embedding: seq<real>, gender: Gender, age: int)

  /** The detector as seen from the core: an image, a detection size (width,
      height) and a detection threshold give the faces it finds. */
  type Detector = (Image, int, int, real) -> seq<Face>

  /** The raw cosine of two embeddings (computed outside the model). */
  type Cosine = (seq<real>, seq<real>) -> real

  // ---------------------------------------------------------------------------
  // Similarity scorer

  /** The score is the raw cosine clamped below at zero. */
  function CosineSimilarityFace(cosine: Cosine, a: Face, b: Face): (r: real)
    ensures r >= 0.0 && r >= cosine(a.embedding, b.embedding)
    ensures cosine(a.embedding, b.embedding) >= 0.0 ==> r == cosine(a.embedding, b.embedding)
    ensures cosine(a.embedding, b.embedding) <= 0.0 ==> r == 0.0
  {
    var raw := cosine(a.embedding, b.embedding);
    if raw < 0.0 then 0.0 else raw
  }

  // ---------------------------------------------------------------------------
  // List lookup with a default

  /** `l[index] if index < len(l) else default`, with Python's indexing: a
      negative index counts from the end and one below `-len(l)` raises. */
  function GetOrDefault<T>(l: seq<T>, index: int, default: T): (r: Result<T>)
    ensures 0 <= index < |l| ==> r == Ok(l[index])
    ensures index >= |l| ==> r == Ok(default)
    ensures -|l| <= index < 0 ==> r == Ok(l[|l| + index])
    ensures r.Err? <==> index < -|l|
  {
    if index < |l| then
      if 0 <= index then Ok(l[index])
      else if -|l| <= index then Ok(l[|l| + index])
      else Err(IndexError)
    else Ok(default)
  }

  // ---------------------------------------------------------------------------
  // Stable sorting by a real-valued key

  predicate SortedBy<T>(s: seq<T>, key: T -> real) {
    forall i, j :: 0 <= i < j < |s| ==> key(s[i]) <= key(s[j])
  }

  /** Inserts `x` before the first element whose key is not smaller, so `x`
      precedes the elements of equal key that came after it in the input. */
  function Insert<T>(x: T, s: seq<T>, key: T -> real): (r: seq<T>)
    requires SortedBy(s, key)
    ensures SortedBy(r, key)
    ensures multiset(r) == multiset(s) + multiset{x}
  {
    if s == [] || key(x) <= key(s[0]) then [x] + s
    else
      var t := Insert(x, s[1..], key);
      assert s == [s[0]] + s[1..];
      HeadBelowInserted(x, s, key, t);
      [s[0]] + t
  }

  lemma HeadBelowInserted<T>(x: T, s: seq<T>, key: T -> real, t: seq<T>)
    requires s != [] && SortedBy(s, key) && key(s[0]) < key(x)
    requires multiset(t) == multiset(s[1..]) + multiset{x}
    ensures forall k :: 0 <= k < |t| ==> key(s[0]) <= key(t[k])
  {
    forall k | 0 <= k < |t| ensures key(s[0]) <= key(t[k]) {
      assert t[k] in multiset(t);
      if t[k] != x {
        assert t[k] in multiset(s[1..]);
        var i :| 0 <= i < |s[1..]| && s[1..][i] == t[k];
        assert s[i + 1] == t[k];
      }
    }
  }

  /** Python's `sorted(s, key=key)`: an insertion sort, stable. */
  function StableSort<T>(s: seq<T>, key: T -> real): (r: seq<T>)
    ensures SortedBy(r, key)
    ensures multiset(r) == multiset(s)
  {
    if s == [] then []
    else
      assert s == [s[0]] + s[1..];
      Insert(s[0], StableSort(s[1..], key), key)
  }

  /** The elements of `s` whose key is `v`, in their order in `s`. */
  function WithKey<T>(s: seq<T>, key: T -> real, v: real): seq<T> {
    if s == [] then [] else (if key(s[0]) == v then [s[0]] else []) + WithKey(s[1..], key, v)
  }

  lemma {:induction false} InsertKeepsKeyOrder<T>(x: T, s: seq<T>, key: T -> real, v: real)
    requires SortedBy(s, key)
    ensures WithKey(Insert(x, s, key), key, v) == (if key(x) == v then [x] else []) + WithKey(s, key, v)
  {
    WithKeyCons(x, s, key, v);
    if s != [] && key(s[0]) < key(x) {
      var t := Insert(x, s[1..], key);
      assert Insert(x, s, key) == [s[0]] + t;
      InsertKeepsKeyOrder(x, s[1..], key, v);
      WithKeyCons(s[0], t, key, v);
      WithKeyCons(s[0], s[1..], key, v);
      assert s == [s[0]] + s[1..];
      SwapDisjoint(if key(s[0]) == v then [s[0]] else [], if key(x) == v then [x] else [], WithKey(s[1..], key, v));
    }
  }

  lemma WithKeyCons<T>(y: T, t: seq<T>, key: T -> real, v: real)
    ensures WithKey([y] + t, key, v) == (if key(y) == v then [y] else []) + WithKey(t, key, v)
  {
    assert ([y] + t)[1..] == t;
  }

  /** Two pieces of which one is empty commute. */
  lemma SwapDisjoint<T>(a: seq<T>, b: seq<T>, c: seq<T>)
    requires a == [] || b == []
    ensures a + (b + c) == b + (a + c)
  {
    if a == [] {
      assert a + (b + c) == b + c == b + (a + c);
    } else {
      assert a + (b + c) == a + c == b + (a + c);
    }
  }

  /** Stability: elements with equal keys keep their relative order. */
  lemma {:induction false} StableSortKeepsKeyOrder<T>(s: seq<T>, key: T -> real, v: real)
    ensures WithKey(StableSort(s, key), key, v) == WithKey(s, key, v)
  {
    if s != [] {
      StableSortKeepsKeyOrder(s[1..], key, v);
      InsertKeepsKeyOrder(s[0], StableSort(s[1..], key), key, v);
    }
  }

  // ---------------------------------------------------------------------------
  // Face locator

  const DefaultDetSize: int := 640
  const BackoffFloor: int := 320

  /** Bounding-box area, the key of the size ordering. */
  function Area(f: Face): real {
    match f.bbox
    case Some(b) => (b.x1 - b.x0) * (b.y1 - b.y0)
    case None => 0.0
  }

  /** `sorted(..., reverse=True, key=area)` keeps equal areas in input order,
      which is a stable ascending sort on the negated area. */
  function SizeKey(f: Face): real { -Area(f) }

  /** The left edge `bbox[0]`, the key of the position ordering. */
  function LeftKey(f: Face): real {
    match f.bbox
    case Some(b) => b.x0
    case None => 0.0
  }

  predicate AllBoxed(faces: seq<Face>) {
    forall k :: 0 <= k < |faces| ==> faces[k].bbox.Some?
  }

  predicate Backs(detect: Detector, img: Image, w: int, h: int, thresh: real) {
    |detect(img, w, h, thresh)| == 0 && w > BackoffFloor && h > BackoffFloor
  }

  /** The detection sizes `get_faces` tries, in order, starting from (w, h). */
  function Attempts(detect: Detector, img: Image, w: int, h: int, thresh: real): (a: seq<(int, int)>)
    decreases w
    ensures |a| >= 1 && a[0] == (w, h)
    ensures forall k :: 0 <= k < |a| - 1 ==>
      Backs(detect, img, a[k].0, a[k].1, thresh) && a[k + 1] == (a[k].0 / 2, a[k].1 / 2)
    ensures !Backs(detect, img, a[|a| - 1].0, a[|a| - 1].1, thresh)
  {
    if Backs(detect, img, w, h, thresh) then [(w, h)] + Attempts(detect, img, w / 2, h / 2, thresh)
    else [(w, h)]
  }

  /** `get_faces`: detect at (w, h); when nothing is found and both dimensions
      exceed 320, retry at half size (without forwarding `sortBySize`);
      otherwise order the faces by size or by left edge, giving up with no faces
      when a sort key cannot be computed. */
  function GetFaces(detect: Detector, img: Image, w: int, h: int, thresh: real, sortBySize: bool): seq<Face>
    decreases w
  {
    var found := detect(img, w, h, thresh);
    if |found| == 0 && w > BackoffFloor && h > BackoffFloor then
      GetFaces(detect, img, w / 2, h / 2, thresh, false)
    else if !AllBoxed(found) then []
    else if sortBySize then StableSort(found, SizeKey)
    else StableSort(found, LeftKey)
  }

  /** What `get_faces` returns: the faces found at the last size tried, permuted;
      ordered by decreasing area only when asked to and no back-off happened,
      otherwise by increasing left edge. */
  lemma {:induction false} GetFacesResult(detect: Detector, img: Image, w: int, h: int, thresh: real, sortBySize: bool)
    ensures var a := Attempts(detect, img, w, h, thresh);
            var found := detect(img, a[|a| - 1].0, a[|a| - 1].1, thresh);
            var r := GetFaces(detect, img, w, h, thresh, sortBySize);
            && (AllBoxed(found) ==> multiset(r) == multiset(found))
            && (!AllBoxed(found) ==> r == [])
            && (sortBySize && |a| == 1 ==> SortedBy(r, SizeKey))
            && (!sortBySize || |a| > 1 ==> SortedBy(r, LeftKey))
    decreases w
  {
    if Backs(detect, img, w, h, thresh) {
      GetFacesResult(detect, img, w / 2, h / 2, thresh, false);
      var a := Attempts(detect, img, w, h, thresh);
      assert a[1..] == Attempts(detect, img, w / 2, h / 2, thresh);
      assert a[|a| - 1] == a[1..][|a[1..]| - 1];
    }
  }

  /** The ordering promised by `sortBySize` does not survive a back-off: the
      retry is ordered by left edge. */
  lemma BackoffOrdersByLeftEdge(detect: Detector, img: Image, w: int, h: int, thresh: real)
    requires Backs(detect, img, w, h, thresh)
    ensures GetFaces(detect, img, w, h, thresh, true) == GetFaces(detect, img, w / 2, h / 2, thresh, false)
    ensures SortedBy(GetFaces(detect, img, w, h, thresh, true), LeftKey)
  {
    GetFacesResult(detect, img, w / 2, h / 2, thresh, false);
  }

  /** From the default 640x640 at most two sizes are tried: 640 and 320. */
  lemma DefaultSizeTriesAtMostTwice(detect: Detector, img: Image, thresh: real)
    ensures var a := Attempts(detect, img, DefaultDetSize, DefaultDetSize, thresh);
            a == [(640, 640)] || a == [(640, 640), (320, 320)]
  {
  }

  /** Back-off stops at 320: a face that the detector only finds at 160x160 or
      below is never found from the default size. */
  lemma NoBackoffBelowFloor(detect: Detector, img: Image, thresh: real)
    requires forall w, h :: w > 160 || h > 160 ==> detect(img, w, h, thresh) == []
    ensures GetFaces(detect, img, DefaultDetSize, DefaultDetSize, thresh, false) == []
  {
    assert detect(img, 640, 640, thresh) == [];
    assert detect(img, 320, 320, thresh) == [];
  }

  // ---------------------------------------------------------------------------
  // Identity blender

  predicate SameShapes(faces: seq<Face>)
    requires faces != []
  {
    forall i :: 0 <= i < |faces| ==> |faces[i].embedding| == |faces[0].embedding|
  }

  /** The sum of the k-th embedding components. */
  function ColumnSum(faces: seq<Face>, k: nat): real
    requires forall i :: 0 <= i < |faces| ==> k < |faces[i].embedding|
  {
    if faces == [] then 0.0 else ColumnSum(faces[..|faces| - 1], k) + faces[|faces| - 1].embedding[k]
  }

  /** `np.mean(embeddings, axis=0)`. */
  function MeanEmbedding(faces: seq<Face>): (m: seq<real>)
    requires faces != [] && SameShapes(faces)
    ensures |m| == |faces[0].embedding|
  {
    seq(|faces[0].embedding|, k requires 0 <= k < |faces[0].embedding| => ColumnSum(faces, k) / (|faces| as real))
  }

  /** `blend_faces`: `None` for no faces, `ValueError` when an embedding's shape
      differs from the first, otherwise a face with the mean embedding and the
      first face's gender and age; with two or more faces a mean equal to the
      first embedding fails the assertion. */
  function BlendFaces(faces: seq<Face>): (r: Result<Option<Face>>)
    ensures r == Ok(None) <==> faces == []
    ensures r == Err(ValueError) <==> faces != [] && !SameShapes(faces)
    ensures r == Err(AssertionError) <==>
      faces != [] && SameShapes(faces) && |faces| > 1 && MeanEmbedding(faces) == faces[0].embedding
    ensures r.Ok? && r.value.Some? ==>
      faces != [] && SameShapes(faces) &&
      r.value.value == Face(None, [], MeanEmbedding(faces), faces[0].gender, faces[0].age)
    ensures faces != [] && SameShapes(faces) && !(|faces| > 1 && MeanEmbedding(faces) == faces[0].embedding) ==>
      r == Ok(Some(Face(None, [], MeanEmbedding(faces), faces[0].gender, faces[0].age)))
  {
    if faces == [] then Ok(None)
    else if !SameShapes(faces) then Err(ValueError)
    else
      var blended := Face(None, [], MeanEmbedding(faces), faces[0].gender, faces[0].age);
      if |faces| > 1 && blended.embedding == faces[0].embedding then Err(AssertionError)
      else Ok(Some(blended))
  }

  lemma {:induction false} ColumnSumBounds(faces: seq<Face>, k: nat, lo: real, hi: real)
    requires forall i :: 0 <= i < |faces| ==> k < |faces[i].embedding| && lo <= faces[i].embedding[k] <= hi
    ensures (|faces| as real) * lo <= ColumnSum(faces, k) <= (|faces| as real) * hi
  {
    if faces != [] {
      ColumnSumBounds(faces[..|faces| - 1], k, lo, hi);
    }
  }

  /** Each blended component lies between the smallest and the largest of the
      contributing components. */
  lemma MeanWithinBounds(faces: seq<Face>, k: nat, lo: real, hi: real)
    requires faces != [] && SameShapes(faces) && k < |faces[0].embedding|
    requires forall i :: 0 <= i < |faces| ==> lo <= faces[i].embedding[k] <= hi
    ensures lo <= MeanEmbedding(faces)[k] <= hi
  {
    ColumnSumBounds(faces, k, lo, hi);
    DivBetween(ColumnSum(faces, k), |faces| as real, lo, hi);
  }

  lemma DivBetween(s: real, n: real, lo: real, hi: real)
    requires n > 0.0 && n * lo <= s <= n * hi
    ensures lo <= s / n <= hi
  {
    assert (s / n) * n == s;
  }

  /** Blending faces that all share one embedding gives that embedding. */
  lemma MeanOfEqualEmbeddings(faces: seq<Face>)
    requires faces != [] && SameShapes(faces)
    requires forall i :: 0 <= i < |faces| ==> faces[i].embedding == faces[0].embedding
    ensures MeanEmbedding(faces) == faces[0].embedding
  {
    var e := faces[0].embedding;
    forall k | 0 <= k < |e| ensures MeanEmbedding(faces)[k] == e[k] {
      MeanWithinBounds(faces, k, e[k], e[k]);
    }
  }

  /** A single face blends to its own embedding, gender and age. */
  lemma BlendSingle(f: Face)
    ensures BlendFaces([f]) == Ok(Some(Face(None, [], f.embedding, f.gender, f.age)))
  {
    MeanOfEqualEmbeddings([f]);
  }

  /** Two or more faces with one shared embedding always fail the assertion. */
  lemma BlendOfIdenticalFails(faces: seq<Face>)
    requires |faces| > 1
    requires forall i :: 0 <= i < |faces| ==> faces[i].embedding == faces[0].embedding
    ensures BlendFaces(faces) == Err(AssertionError)
  {
    MeanOfEqualEmbeddings(faces);
  }

  /** Blending [1, 0] with [0, 1] gives [0.5, 0.5]. */
  lemma BlendTwoUnitVectors(a: Face, b: Face)
    requires a.embedding == [1.0, 0.0] && b.embedding == [0.0, 1.0]
    ensures BlendFaces([a, b]) == Ok(Some(Face(None, [], [0.5, 0.5], a.gender, a.age)))
  {
    var faces := [a, b];
    assert faces[..1] == [a] && [a][..0] == [];
    assert ColumnSum([a], 0) == ColumnSum([], 0) + 1.0;
    assert ColumnSum([a], 1) == ColumnSum([], 1) + 0.0;
    assert ColumnSum(faces, 0) == ColumnSum([a], 0) + 0.0;
    assert ColumnSum(faces, 1) == ColumnSum([a], 1) + 1.0;
    var m := MeanEmbedding(faces);
    assert m[0] == 0.5 && m[1] == 0.5;
    assert m == [0.5, 0.5];
  }

  /** Distinct faces can still fail the assertion: the mean of [0], [1] and [-1]
      is the first embedding. */
  lemma DistinctFacesCanFailBlend(a: Face, b: Face, c: Face)
    requires a.embedding == [0.0] && b.embedding == [1.0] && c.embedding == [-1.0]
    ensures a != b && b != c && a != c
    ensures BlendFaces([a, b, c]) == Err(AssertionError)
  {
    var faces := [a, b, c];
    assert faces[..2] == [a, b] && [a, b][..1] == [a] && [a][..0] == [];
    assert ColumnSum([a], 0) == 0.0;
    assert ColumnSum([a, b], 0) == 1.0;
    assert ColumnSum(faces, 0) == 0.0;
    var m := MeanEmbedding(faces);
    assert m[0] == 0.0;
    assert m == [0.0];
  }
}
