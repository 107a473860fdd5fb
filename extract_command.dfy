/**
 * The `extract_features` management command: the indexing step over every active product,
 * reporting one line per product and the final counters.
 */
module ExtractCommand {
  import opened Indexing

  /** What the command writes: the number of products, one outcome per product, and the counters. */
  datatype Report = Report(total: nat, lines: seq<Outcome>, processed: nat, errors: nat)

  /**
   * `Command.handle`: every product gets exactly one report line, in order; eligible products
   * are processed or counted as errors, the others are reported as having no image or as already
   * extracted; only processed products receive a descriptor.
   */
  method Handle(io: Io, products: seq<IndexedProduct>) returns (report: Report)
    requires forall i, j :: 0 <= i < j < |products| ==> products[i] != products[j]
    modifies products
    ensures report.total == |products|
    ensures report.lines == Outcomes(io, old(Rows(products)))
    ensures report.processed == Count(report.lines).processed && report.errors == Count(report.lines).errors
    ensures report.processed + report.errors == EligibleCount(old(Rows(products))) <= report.total
    ensures forall i :: 0 <= i < |products| ==>
      && products[i].image == old(products[i].image)
      && products[i].featureVector == Written(io, old(Row(products[i].image, products[i].featureVector)))
  {
    ghost var rows := Rows(products);
    var lines: seq<Outcome> := [];
    var processed, errors := 0, 0;
    for i := 0 to |products|
      invariant |lines| == i
      invariant forall j :: 0 <= j < |products| ==> products[j].image == rows[j].image
      invariant forall j :: 0 <= j < |products| ==>
        products[j].featureVector == if j < i then Written(io, rows[j]) else rows[j].vector
      invariant forall j :: 0 <= j < i ==> lines[j] == Classify(io, rows[j])
      invariant var t := Count(lines); processed == t.processed && errors == t.errors
    {
      var product := products[i];
      assert forall j :: 0 <= j < |products| && j != i ==> products[j] != product;
      var outcome := IndexOne(io, product);
      assert (lines + [outcome])[..i] == lines;
      lines := lines + [outcome];
      if outcome == Processed {
        processed := processed + 1;
      } else if IsError(outcome) {
        errors := errors + 1;
      }
    }
    assert lines == Outcomes(io, rows);
    CountPartition(io, rows);
    report := Report(|products|, lines, processed, errors);
  }
}
