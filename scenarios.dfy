/** Examples of the cleaning on small chunks. */
module Scenarios {
  import opened Frames
  import opened Transform

  const A1: Row := map["invoice_line_no" := Text("A1"), "date" := Text("2023-03-05"), "sale_dollars" := Text("12.5")]
  const A2: Row := map["invoice_line_no" := Text("A2"), "date" := Text("bad-date"), "sale_dollars" := Text("oops")]

  /** A row with a parsable date and amount: the date becomes a timestamp
      and the amount its number; the invoice passes through. */
  lemma CleanParsableRow(p: Parsers, day: Instant)
    requires p.date(Text("2023-03-05")) == Some(day) && p.number(Text("12.5")) == Some(12.5)
    ensures CleanRow(p, A1) == map["invoice_line_no" := Text("A1"), "date" := Timestamp(day), "sale_dollars" := Number(12.5)]
  {
    var r, want := CleanRow(p, A1), map["invoice_line_no" := Text("A1"), "date" := Timestamp(day), "sale_dollars" := Number(12.5)];
    assert "invoice_line_no" != DATE_COLUMN && "invoice_line_no" !in NUM_COLS;
    assert "sale_dollars" in NUM_COLS;
    assert r.Keys == want.Keys;
    assert r["date"] == want["date"];
    assert r["sale_dollars"] == want["sale_dollars"];
    assert r["invoice_line_no"] == want["invoice_line_no"];
  }

  /** A row with an unparsable date and amount: the date becomes the missing
      marker and the amount zero; the invoice passes through. */
  lemma CleanUnparsableRow(p: Parsers)
    requires p.date(Text("bad-date")) == None && p.number(Text("oops")) == None
    ensures CleanRow(p, A2) == map["invoice_line_no" := Text("A2"), "date" := Missing, "sale_dollars" := Number(0.0)]
  {
    var r, want := CleanRow(p, A2), map["invoice_line_no" := Text("A2"), "date" := Missing, "sale_dollars" := Number(0.0)];
    assert "invoice_line_no" != DATE_COLUMN && "invoice_line_no" !in NUM_COLS;
    assert "sale_dollars" in NUM_COLS;
    assert r.Keys == want.Keys;
    assert r["date"] == want["date"];
    assert r["sale_dollars"] == want["sale_dollars"];
    assert r["invoice_line_no"] == want["invoice_line_no"];
  }

  /** A chunk that lacks the numeric column `pack` cannot be cleaned: the
      cleaning stops on that column with a `KeyError`, after `date`. */
  lemma CleanMissingPack(p: Parsers)
    ensures CleanTable(p, Table({"invoice_line_no", "date", "sale_dollars"}, [A1, A2])) == Err("pack")
  {
    var cols := {"invoice_line_no", "date", "sale_dollars"};
    assert "pack" !in cols;
    FirstMissingAt(cols, COERCED, 1);
  }
}
