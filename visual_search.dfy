/**
 * The visual-search engine: the fixed-length image descriptor and the similarity of two
 * descriptors.
 *
 * The image library (grayscale conversion, resizing, histogram) and the cosine similarity are
 * foreign code; they are passed in as functions, `None` standing for a call that raises. What
 * the engine itself decides is modelled exactly: which input is converted, the order in which
 * histogram and pixels are concatenated, the normalisation, the truncation or zero padding to
 * `FeatureSize`, and the handling of missing descriptors and of vectors of different lengths.
 */
module VisualSearch {
  import opened Wrappers

  /** The descriptor length, set once by the engine's constructor. */
  const FeatureSize: nat := 512
  /** Side of the square the image is resized to. */
  const GridSide: nat := 64
  /** Number of histogram bins over the sample range [0, 256). */
  const HistBins: nat := 32

  /** An unsigned 8-bit sample. */
  type Byte = b: int | 0 <= b < 256

  /** An image array: its shape (rows, columns and, for a colour image, channels) and its samples in row-major order. */
  datatype Image = Image(shape: seq<nat>, samples: seq<Byte>)

  /** The image-library calls the engine makes; `None` is a call that raises. */
  datatype Vision = Vision(
    toGray: Image -> Option<Image>,          // BGR to grayscale conversion
    resize: Image -> Option<seq<Byte>>,      // resize to GridSide x GridSide, flattened row by row
    calcHist: seq<Byte> -> Option<seq<real>>) // HistBins-bin histogram of the samples, flattened

  /** The length contracts of the library: a resize yields GridSide² samples and a histogram HistBins counts. */
  ghost predicate Conforms(v: Vision)
  {
    && (forall im :: v.resize(im).Some? ==> |v.resize(im).value| == GridSide * GridSide)
    && (forall px :: v.calcHist(px).Some? ==> |v.calcHist(px).value| == HistBins)
  }

  /** Samples divided by 255. */
  function Normalize(samples: seq<Byte>): (r: seq<real>)
    ensures |r| == |samples|
    ensures forall i :: 0 <= i < |r| ==> 0.0 <= r[i] <= 1.0 && r[i] * 255.0 == samples[i] as real
  {
    if samples == [] then []
    else Normalize(samples[..|samples| - 1]) + [samples[|samples| - 1] as real / 255.0]
  }

  /** `n` zeros. */
  function Zeros(n: nat): (r: seq<real>)
    ensures |r| == n && forall i :: 0 <= i < n ==> r[i] == 0.0
  {
    if n == 0 then [] else Zeros(n - 1) + [0.0]
  }

  /** Truncation to the first `n` entries, or zero padding at the end up to `n` entries. */
  function Fit(features: seq<real>, n: nat): (r: seq<real>)
    ensures |r| == n
    ensures forall i :: 0 <= i < n && i < |features| ==> r[i] == features[i]
    ensures forall i :: |features| <= i < n ==> r[i] == 0.0
  {
    if |features| > n then features[..n] else features + Zeros(n - |features|)
  }

  /** The image the engine resizes: a 3-dimensional (colour) array is converted to grayscale first. */
  function Gray(v: Vision, image: Image): Option<Image>
  {
    if |image.shape| == 3 then v.toGray(image) else Some(image)
  }

  /**
   * `extract_features`: histogram bins then normalised pixels, fitted to `FeatureSize`;
   * a descriptor exists exactly when there is an image and no library call raises.
   */
  function ExtractFeatures(v: Vision, image: Option<Image>): (r: Option<seq<real>>)
    ensures image.None? ==> r.None?
    ensures r.Some? ==> |r.value| == FeatureSize
    ensures r.Some? <==>
      && image.Some?
      && Gray(v, image.value).Some?
      && v.resize(Gray(v, image.value).value).Some?
      && v.calcHist(v.resize(Gray(v, image.value).value).value).Some?
  {
    match image
    case None => None
    case Some(im) =>
      match Gray(v, im)
      case None => None
      case Some(gray) =>
        match v.resize(gray)
        case None => None
        case Some(pixels) =>
          match v.calcHist(pixels)
          case None => None
          case Some(hist) => Some(Fit(hist + Normalize(pixels), FeatureSize))
  }

  /**
   * The layout of a descriptor: with a conforming library the concatenation (32 + 4096 entries)
   * is longer than `FeatureSize`, so the descriptor is the histogram followed by the first 480
   * pixels, row by row, each in [0, 1].
   */
  lemma DescriptorLayout(v: Vision, image: Image)
    requires Conforms(v)
    ensures var r := ExtractFeatures(v, Some(image));
      r.Some? ==>
        var pixels := v.resize(Gray(v, image).value).value;
        && r.value[..HistBins] == v.calcHist(pixels).value
        && |pixels| >= FeatureSize - HistBins
        && forall i :: HistBins <= i < FeatureSize ==>
             r.value[i] * 255.0 == pixels[i - HistBins] as real && 0.0 <= r.value[i] <= 1.0
  {
    var r := ExtractFeatures(v, Some(image));
    if r.Some? {
      var pixels := v.resize(Gray(v, image).value).value;
      var hist := v.calcHist(pixels).value;
      var all := hist + Normalize(pixels);
      assert |all| == HistBins + GridSide * GridSide;
      assert r.value == all[..FeatureSize];
      forall i | HistBins <= i < FeatureSize
        ensures r.value[i] * 255.0 == pixels[i - HistBins] as real && 0.0 <= r.value[i] <= 1.0
      {
        assert r.value[i] == Normalize(pixels)[i - HistBins];
      }
    }
  }

  /**
   * Without a conforming library the concatenation may be short; it is then padded with zeros
   * at the end only, after the histogram and all the pixels.
   */
  lemma ShortDescriptorIsPadded(v: Vision, image: Image)
    ensures var r := ExtractFeatures(v, Some(image));
      r.Some? ==>
        var pixels := v.resize(Gray(v, image).value).value;
        var all := v.calcHist(pixels).value + Normalize(pixels);
        |all| <= FeatureSize ==> r.value == all + Zeros(FeatureSize - |all|)
  {
  }

  /** A colour image has the descriptor of its grayscale conversion (when that is 2-dimensional). */
  lemma ColorDescriptorIsGrayDescriptor(v: Vision, image: Image, gray: Image)
    requires |image.shape| == 3 && v.toGray(image) == Some(gray) && |gray.shape| != 3
    ensures ExtractFeatures(v, Some(image)) == ExtractFeatures(v, Some(gray))
  {
  }

  /** Any other image never goes through the grayscale conversion. */
  lemma NonColorSkipsConversion(v: Vision, w: Vision, image: Image)
    requires |image.shape| != 3 && v.resize == w.resize && v.calcHist == w.calcHist
    ensures ExtractFeatures(v, Some(image)) == ExtractFeatures(w, Some(image))
  {
  }

  /** The cosine similarity of two equally long vectors; `None` is a call that raises. */
  type Cosine = (seq<real>, seq<real>) -> Option<real>

  function Min(a: nat, b: nat): nat
  {
    if a <= b then a else b
  }

  /**
   * `calculate_similarity`: 0 when a descriptor is missing or the cosine raises; otherwise the
   * cosine of the two vectors cut to their common length.
   */
  function CalculateSimilarity(f1: Option<seq<real>>, f2: Option<seq<real>>, cosine: Cosine): (r: real)
    ensures f1.None? || f2.None? ==> r == 0.0
    ensures f1.Some? && f2.Some? ==>
      var n := Min(|f1.value|, |f2.value|);
      && (cosine(f1.value[..n], f2.value[..n]).None? ==> r == 0.0)
      && (cosine(f1.value[..n], f2.value[..n]).Some? ==> r == cosine(f1.value[..n], f2.value[..n]).value)
    ensures (forall a, b :: cosine(a, b).Some? ==> -1.0 <= cosine(a, b).value <= 1.0) ==> -1.0 <= r <= 1.0
  {
    if f1.None? || f2.None? then 0.0
    else
      var n := Min(|f1.value|, |f2.value|);
      match cosine(f1.value[..n], f2.value[..n])
      case None => 0.0
      case Some(s) => s
  }

  /** Entries beyond the shorter vector's length never matter. */
  lemma SimilarityIgnoresTail(f1: seq<real>, f2: seq<real>, extra: seq<real>, cosine: Cosine)
    requires |f1| <= |f2|
    ensures CalculateSimilarity(Some(f1), Some(f2 + extra), cosine) == CalculateSimilarity(Some(f1), Some(f2), cosine)
  {
    assert (f2 + extra)[..|f1|] == f2[..|f1|];
  }

  /** With a symmetric cosine, the similarity does not depend on which vector comes first or is shorter. */
  lemma SimilaritySymmetric(f1: Option<seq<real>>, f2: Option<seq<real>>, cosine: Cosine)
    requires forall a, b :: cosine(a, b) == cosine(b, a)
    ensures CalculateSimilarity(f1, f2, cosine) == CalculateSimilarity(f2, f1, cosine)
  {
    if f1.Some? && f2.Some? {
      var n := Min(|f1.value|, |f2.value|);
      assert n == Min(|f2.value|, |f1.value|);
      assert cosine(f1.value[..n], f2.value[..n]) == cosine(f2.value[..n], f1.value[..n]);
    }
  }
}
