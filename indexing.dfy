/**
 * The per-product step shared by the `extract_product_features` endpoint and the
 * `extract_features` management command: a product with an image and no stored descriptor has
 * its image read, its descriptor extracted and, on success, the descriptor's bytes stored.
 */
module Indexing {
  import opened Wrappers
  import opened VisualSearch

  /** The calls the step makes outside the engine: reading an image file and serialising a descriptor. */
  datatype Io = Io(
    vision: Vision,
    imread: string -> Option<Image>,  // None when the file cannot be read or decoded
    toBytes: seq<real> -> seq<Byte>)  // the descriptor's float64 entries as raw bytes

  /** `toBytes` writes eight bytes per entry. */
  ghost predicate SerialisesFloat64(io: Io)
  {
    forall f :: |io.toBytes(f)| == 8 * |f|
  }

  /** A product as the step sees it: its image name ("" when it has none) and its stored descriptor bytes. */
  class IndexedProduct {
    var image: string
    var featureVector: Option<seq<Byte>>
  }

  /** A stored descriptor counts only when present and non-empty. */
  predicate HasVector(v: Option<seq<Byte>>)
  {
    v.Some? && |v.value| > 0
  }

  /** What happens to a product in one pass. */
  datatype Outcome =
    | Processed         // descriptor extracted and stored
    | ExtractionFailed  // the engine returned None
    | Unreadable        // the image could not be read
    | NoImage           // skipped: no image
    | AlreadyExtracted  // skipped: a descriptor is already stored

  predicate IsError(o: Outcome)
  {
    o == ExtractionFailed || o == Unreadable
  }

  /** The state of one product before the pass. */
  datatype Row = Row(image: string, vector: Option<seq<Byte>>)

  /** The product is touched exactly when it has an image and no stored descriptor. */
  predicate Eligible(row: Row)
  {
    row.image != "" && !HasVector(row.vector)
  }

  /** The descriptor of the product's image, when the image can be read and the engine succeeds. */
  function Features(io: Io, image: string): Option<seq<real>>
  {
    match io.imread(image)
    case None => None
    case Some(im) => ExtractFeatures(io.vision, Some(im))
  }

  /** The outcome of the step for a product. */
  function Classify(io: Io, row: Row): (o: Outcome)
    ensures o == NoImage <==> row.image == ""
    ensures o == AlreadyExtracted <==> row.image != "" && HasVector(row.vector)
    ensures o == Processed || IsError(o) <==> Eligible(row)
    ensures o == Processed <==> Eligible(row) && Features(io, row.image).Some?
  {
    if Eligible(row) then
      match io.imread(row.image)
      case None => Unreadable
      case Some(im) => if ExtractFeatures(io.vision, Some(im)).None? then ExtractionFailed else Processed
    else if row.image == "" then NoImage
    else AlreadyExtracted
  }

  /** The descriptor bytes stored after the step: new bytes only for a processed product. */
  function Written(io: Io, row: Row): (r: Option<seq<Byte>>)
    ensures Classify(io, row) != Processed ==> r == row.vector
    ensures Classify(io, row) == Processed ==> r == Some(io.toBytes(Features(io, row.image).value))
  {
    if Eligible(row) && Features(io, row.image).Some? then Some(io.toBytes(Features(io, row.image).value))
    else row.vector
  }

  /**
   * A second pass changes nothing: a processed product now holds a 4096-byte descriptor and is
   * skipped as already extracted, and every other product was left as it was.
   */
  lemma SecondPassIsIdle(io: Io, row: Row)
    requires SerialisesFloat64(io)
    ensures var after := Row(row.image, Written(io, row));
      && (Classify(io, row) == Processed ==> Classify(io, after) == AlreadyExtracted)
      && Written(io, after) == Written(io, row)
  {
    if Classify(io, row) == Processed {
      var f := Features(io, row.image).value;
      assert |io.toBytes(f)| == 8 * FeatureSize;
    }
  }

  /** One product's step. */
  method IndexOne(io: Io, p: IndexedProduct) returns (outcome: Outcome)
    modifies p`featureVector
    ensures outcome == Classify(io, old(Row(p.image, p.featureVector)))
    ensures p.featureVector == Written(io, old(Row(p.image, p.featureVector)))
  {
    if p.image != "" && !HasVector(p.featureVector) {
      var image := io.imread(p.image);
      if image.Some? {
        var features := ExtractFeatures(io.vision, image);
        if features.Some? {
          p.featureVector := Some(io.toBytes(features.value));
          outcome := Processed;
        } else {
          outcome := ExtractionFailed;
        }
      } else {
        outcome := Unreadable;
      }
    } else if p.image == "" {
      outcome := NoImage;
    } else {
      outcome := AlreadyExtracted;
    }
  }

  // ---------------------------------------------------------------------------------------------
  // A pass over many products.

  /** The products' states, in order. */
  function Rows(ps: seq<IndexedProduct>): (r: seq<Row>)
    reads set p | p in ps
    ensures |r| == |ps| && forall i :: 0 <= i < |ps| ==> r[i] == Row(ps[i].image, ps[i].featureVector)
  {
    if ps == [] then [] else Rows(ps[..|ps| - 1]) + [Row(ps[|ps| - 1].image, ps[|ps| - 1].featureVector)]
  }

  /** The outcome for each row. */
  function Outcomes(io: Io, rows: seq<Row>): (r: seq<Outcome>)
    ensures |r| == |rows| && forall i :: 0 <= i < |rows| ==> r[i] == Classify(io, rows[i])
  {
    if rows == [] then [] else Outcomes(io, rows[..|rows| - 1]) + [Classify(io, rows[|rows| - 1])]
  }

  /** The counters a pass keeps. */
  datatype Tally = Tally(processed: nat, errors: nat, skipped: nat)

  /** The counters after one more product. */
  function Bump(t: Tally, o: Outcome): Tally
  {
    if o == Processed then t.(processed := t.processed + 1)
    else if IsError(o) then t.(errors := t.errors + 1)
    else t.(skipped := t.skipped + 1)
  }

  function Count(os: seq<Outcome>): Tally
  {
    if os == [] then Tally(0, 0, 0) else Bump(Count(os[..|os| - 1]), os[|os| - 1])
  }

  /** The number of eligible rows. */
  function EligibleCount(rows: seq<Row>): (n: nat)
    ensures n <= |rows|
  {
    if rows == [] then 0 else EligibleCount(rows[..|rows| - 1]) + (if Eligible(rows[|rows| - 1]) then 1 else 0)
  }

  /**
   * Every eligible product increments exactly one of the two counters and every other product
   * neither, so processed + errors is the number of eligible products, at most the number of
   * products in the pass.
   */
  lemma {:induction false} CountPartition(io: Io, rows: seq<Row>)
    ensures var t := Count(Outcomes(io, rows));
      && t.processed + t.errors == EligibleCount(rows)
      && t.skipped == |rows| - EligibleCount(rows)
      && t.processed + t.errors + t.skipped == |rows|
    decreases |rows|
  {
    if rows != [] {
      var init := rows[..|rows| - 1];
      CountPartition(io, init);
      assert Outcomes(io, rows)[..|rows| - 1] == Outcomes(io, init);
    }
  }
}
