/** `create_table`: the report matrix. A header names the serotype column and
    every primer pair in primer-file order; then every registry line gets one
    row with the sample, its serotype and its amplicon cells. Every line is
    appended to `results.out`. */
module Table {
  import opened Text
  import opened Files
  import opened SeqSero
  import opened IsPcr

  /** The first header cell: an empty column over the sample names, then the
      serotype column. */
  const HeaderLead := "\tSeqSero"
  /** The serotype cell for a prediction that starts with this sentinel. */
  const NoPrediction := "N/A"
  /** The cell of a primer pair that gave no product for the sample. */
  const NoProduct := "none"

  /** `results.out`, opened in append mode: what it held before, followed by
      the text of every `write` call, in order. */
  class ResultsFile {
    var written: seq<string>

    constructor Open(existing: seq<string>)
      ensures written == existing
    {
      written := existing;
    }

    method Write(text: string)
      modifies this
      ensures written == old(written) + [text]
    {
      written := written + [text];
    }
  }

  datatype Outcome = Done | Failed(error: Error)

  /** What a run of `create_table` appends to `results.out`, and how it ends. */
  datatype Report = Report(written: seq<string>, outcome: Outcome)

  /** The primer-pair names, one per primer-file line, in file order. */
  function PrimerNames(lines: Lines): (r: seq<string>)
    ensures |r| == |lines|
  {
    seq(|lines|, i requires 0 <= i < |lines| => PrimerName(lines[i]))
  }

  /** The header list: the serotype lead cell, then the primer-pair names. */
  function HeaderCells(names: seq<string>): seq<string>
  {
    [HeaderLead] + names
  }

  function HeaderText(names: seq<string>): string
  {
    Join(HeaderCells(names), '\t') + "\n"
  }

  /** The serotype cell: only the first prediction counts; one that starts
      with `N/A` becomes exactly `N/A`; no prediction at all fails, since the
      list is indexed unconditionally. */
  function SerotypeCell(predictions: seq<string>): (r: Result<string>)
    ensures r.Err? <==> predictions == []
    ensures r.Err? ==> r.error == IndexOutOfRange
    ensures r.Ok? ==> (r.value == NoPrediction <==> NoPrediction <= predictions[0])
    ensures r.Ok? && !(NoPrediction <= predictions[0]) ==> r.value == predictions[0]
  {
    if predictions == [] then Err(IndexOutOfRange)
    else
      TakeIsPrefix(predictions[0], NoPrediction);
      if Take(predictions[0], 3) == NoPrediction then Ok(NoPrediction) else Ok(predictions[0])
  }

  /** The amplicons of `sample`, in hit-list order (`amplifications`). */
  function Amplifications(hits: seq<Hit>, sample: string): seq<Amplicon>
  {
    if hits == [] then []
    else (if hits[0].sample == sample then [hits[0].amplicon] else []) + Amplifications(hits[1..], sample)
  }

  /** The primer names of those amplicons (`amplifications_short`). */
  function Primers(amps: seq<Amplicon>): (r: seq<string>)
    ensures |r| == |amps|
  {
    seq(|amps|, i requires 0 <= i < |amps| => amps[i].primer)
  }

  /** How many of the amplicons come from primer pair `p`. */
  function Count(p: string, amps: seq<Amplicon>): nat
  {
    if amps == [] then 0 else (if amps[0].primer == p then 1 else 0) + Count(p, amps[1..])
  }

  /** The cell of one product: `name(length)`, the length as parsed. */
  function Format(a: Amplicon): string
  {
    a.primer + "(" + a.length + ")"
  }

  /** One cell per product of primer pair `p`, in hit-list order. */
  function Formatted(p: string, amps: seq<Amplicon>): (r: seq<string>)
    ensures |r| == Count(p, amps)
  {
    if amps == [] then []
    else (if amps[0].primer == p then [Format(amps[0])] else []) + Formatted(p, amps[1..])
  }

  /** The cells of primer pair `p`: `none` when it gave no product for the
      sample, otherwise one cell per product. */
  function PrimerCells(p: string, amps: seq<Amplicon>): (r: seq<string>)
    ensures Count(p, amps) == 0 ==> r == [NoProduct]
    ensures Count(p, amps) > 0 ==> r == Formatted(p, amps)
    ensures |r| == if Count(p, amps) == 0 then 1 else Count(p, amps)
  {
    CountPositive(p, amps);
    if p in Primers(amps) then Formatted(p, amps) else [NoProduct]
  }

  /** The amplicon cells of a row (`ordered_amplifications`): the cells of
      every primer pair, in primer-file order. */
  function OrderedCells(primers: seq<string>, amps: seq<Amplicon>): (r: seq<string>)
    ensures |r| == CellCount(primers, amps)
  {
    if primers == [] then [] else PrimerCells(primers[0], amps) + OrderedCells(primers[1..], amps)
  }

  /** The number of amplicon cells: at least one per primer pair, one per
      product when there are several. */
  function CellCount(primers: seq<string>, amps: seq<Amplicon>): nat
  {
    if primers == [] then 0
    else (if Count(primers[0], amps) == 0 then 1 else Count(primers[0], amps)) + CellCount(primers[1..], amps)
  }

  /** The cells of the row of `sample` (`observations`). */
  function Observations(sample: string, predicted: Predicted, hits: seq<Hit>, primers: seq<string>): Result<seq<string>>
  {
    match SerotypeCell(Lookup(predicted, sample))
    case Err(e) => Err(e)
    case Ok(serotype) => Ok([sample, serotype] + OrderedCells(primers, Amplifications(hits, sample)))
  }

  /** The text `create_table` writes for one registry line. */
  function RowText(line: string, predicted: Predicted, hits: seq<Hit>, primers: seq<string>): Result<string>
  {
    match SampleOf(line)
    case Err(e) => Err(e)
    case Ok(sample) =>
      match Observations(sample, predicted, hits, primers)
      case Err(e) => Err(e)
      case Ok(cells) => Ok(Join(cells, '\t') + "\n")
  }

  /** The rows of the registry lines `reg`, up to the first that fails. */
  function Rows(reg: Lines, predicted: Predicted, hits: seq<Hit>, primers: seq<string>): Report
  {
    if reg == [] then Report([], Done)
    else
      match RowText(reg[0], predicted, hits, primers)
      case Err(e) => Report([], Failed(e))
      case Ok(text) =>
        var rest := Rows(reg[1..], predicted, hits, primers);
        Report([text] + rest.written, rest.outcome)
  }

  /** `create_table(infile, predictions, isPCR_list, primerfile)`: the primer
      file is read before `results.out` is opened, the header is written before
      the registry is opened, and every row is written as soon as it is built. */
  function Table(fs: FileSystem, infile: string, predicted: Predicted, hits: seq<Hit>, primerfile: string): Report
  {
    if primerfile !in fs then Report([], Failed(FileNotFound(primerfile)))
    else
      var names := PrimerNames(fs[primerfile]);
      if infile !in fs then Report([HeaderText(names)], Failed(FileNotFound(infile)))
      else
        var rows := Rows(fs[infile], predicted, hits, names);
        Report([HeaderText(names)] + rows.written, rows.outcome)
  }

  /** The primer-file loop of `create_table`: the header list and the primer list. */
  method ReadPrimers(lines: Lines) returns (header: seq<string>, primerList: seq<string>)
    ensures primerList == PrimerNames(lines)
    ensures header == HeaderCells(primerList)
  {
    header := [HeaderLead];
    primerList := [];
    var i := 0;
    while i < |lines|
      invariant 0 <= i <= |lines|
      invariant primerList == PrimerNames(lines[..i])
      invariant header == HeaderCells(primerList)
    {
      var primers := Split(Strip(lines[i], '\n'), ' ');
      header := header + [primers[0]];
      primerList := primerList + [primers[0]];
      assert primerList == PrimerNames(lines[..i + 1]);
      i := i + 1;
    }
    assert lines[..i] == lines;
  }

  /** The hit-list loop of `create_table`: the amplicons of `sample` and their
      primer names. */
  method SampleAmplifications(hits: seq<Hit>, sample: string) returns (amps: seq<Amplicon>, shorts: seq<string>)
    ensures amps == Amplifications(hits, sample)
    ensures shorts == Primers(amps)
  {
    amps := [];
    shorts := [];
    var k := 0;
    while k < |hits|
      invariant 0 <= k <= |hits|
      invariant amps == Amplifications(hits[..k], sample)
      invariant shorts == Primers(amps)
    {
      assert hits[..k + 1] == hits[..k] + [hits[k]];
      AmplificationsAppend(hits[..k], [hits[k]], sample);
      AmplificationsSingle(hits[k], sample);
      if hits[k].sample == sample {
        amps := amps + [hits[k].amplicon];
        shorts := shorts + [hits[k].amplicon.primer];
      } else {
        assert amps + [] == amps;
      }
      k := k + 1;
    }
    assert hits[..k] == hits;
  }

  /** The primer loop of `create_table`: for every primer pair in order, one
      cell per product of the sample, or `none`. */
  method OrderAmplifications(primers: seq<string>, amps: seq<Amplicon>, shorts: seq<string>) returns (cells: seq<string>)
    requires shorts == Primers(amps)
    ensures cells == OrderedCells(primers, amps)
  {
    cells := [];
    var i := 0;
    while i < |primers|
      invariant 0 <= i <= |primers|
      invariant cells == OrderedCells(primers[..i], amps)
    {
      var p := primers[i];
      OrderedCellsStep(primers, i, amps);
      CountPositive(p, amps);
      if p in shorts {
        cells := AppendProducts(cells, p, amps);
      } else {
        cells := cells + [NoProduct];
      }
      i := i + 1;
    }
    assert primers[..i] == primers;
  }

  /** The innermost loop of `create_table`: a cell for every product of primer
      pair `p`, appended in hit-list order. */
  method AppendProducts(cells: seq<string>, p: string, amps: seq<Amplicon>) returns (r: seq<string>)
    ensures r == cells + Formatted(p, amps)
  {
    r := cells;
    var k := 0;
    while k < |amps|
      invariant 0 <= k <= |amps|
      invariant r == cells + Formatted(p, amps[..k])
    {
      assert amps[..k + 1] == amps[..k] + [amps[k]];
      FormattedAppend(p, amps[..k], [amps[k]]);
      FormattedSingle(p, amps[k]);
      if p == amps[k].primer {
        r := r + [amps[k].primer + "(" + amps[k].length + ")"];
      } else {
        assert Formatted(p, amps[..k]) + [] == Formatted(p, amps[..k]);
      }
      k := k + 1;
    }
    assert amps[..k] == amps;
  }

  /** The whole of `create_table`, writing to `out`. */
  method CreateTable(fs: FileSystem, infile: string, predicted: Predicted, hits: seq<Hit>, primerfile: string,
                     out: ResultsFile) returns (outcome: Outcome)
    modifies out
    ensures out.written == old(out.written) + Table(fs, infile, predicted, hits, primerfile).written
    ensures outcome == Table(fs, infile, predicted, hits, primerfile).outcome
  {
    if primerfile !in fs {
      return Failed(FileNotFound(primerfile));
    }
    var header, primerList := ReadPrimers(fs[primerfile]);
    out.Write(Join(header, '\t') + "\n");
    if infile !in fs {
      return Failed(FileNotFound(infile));
    }
    outcome := WriteRows(fs[infile], predicted, hits, primerList, out);
  }

  /** The registry loop of `create_table`: one row per registry line, written
      as soon as it is built, until a line fails. */
  method WriteRows(registry: Lines, predicted: Predicted, hits: seq<Hit>, primerList: seq<string>,
                   out: ResultsFile) returns (outcome: Outcome)
    modifies out
    ensures out.written == old(out.written) + Rows(registry, predicted, hits, primerList).written
    ensures outcome == Rows(registry, predicted, hits, primerList).outcome
  {
    var i := 0;
    while i < |registry|
      invariant 0 <= i <= |registry|
      invariant Rows(registry[..i], predicted, hits, primerList).outcome == Done
      invariant out.written == old(out.written) + Rows(registry[..i], predicted, hits, primerList).written
    {
      ghost var done := Rows(registry[..i], predicted, hits, primerList);
      var row := MakeRow(registry[i], predicted, hits, primerList);
      if row.Err? {
        RowsStop(registry, i, predicted, hits, primerList);
        return Failed(row.error);
      }
      RowsStep(registry, i, predicted, hits, primerList);
      out.Write(row.value);
      assert out.written == old(out.written) + (done.written + [row.value]);
      i := i + 1;
    }
    assert registry[..i] == registry;
    return Done;
  }

  /** The rows so far, extended by one more registry line that succeeds. */
  lemma RowsStep(reg: Lines, i: nat, predicted: Predicted, hits: seq<Hit>, primers: seq<string>)
    requires i < |reg|
    requires Rows(reg[..i], predicted, hits, primers).outcome == Done
    requires RowText(reg[i], predicted, hits, primers).Ok?
    ensures Rows(reg[..i + 1], predicted, hits, primers) ==
            Report(Rows(reg[..i], predicted, hits, primers).written + [RowText(reg[i], predicted, hits, primers).value], Done)
  {
    assert reg[..i + 1] == reg[..i] + [reg[i]];
    RowsAppend(reg[..i], [reg[i]], predicted, hits, primers);
    RowsSingle(reg[i], predicted, hits, primers);
  }

  /** The rows so far are all there is once the next registry line fails. */
  lemma RowsStop(reg: Lines, i: nat, predicted: Predicted, hits: seq<Hit>, primers: seq<string>)
    requires i < |reg|
    requires Rows(reg[..i], predicted, hits, primers).outcome == Done
    requires RowText(reg[i], predicted, hits, primers).Err?
    ensures Rows(reg, predicted, hits, primers) ==
            Report(Rows(reg[..i], predicted, hits, primers).written, Failed(RowText(reg[i], predicted, hits, primers).error))
  {
    SplitAt(reg, i);
    RowsAppend(reg[..i], reg[i..], predicted, hits, primers);
    assert reg[i..][0] == reg[i];
    assert Rows(reg[i..], predicted, hits, primers) == Report([], Failed(RowText(reg[i], predicted, hits, primers).error));
    assert Rows(reg[..i], predicted, hits, primers).written + [] == Rows(reg[..i], predicted, hits, primers).written;
  }

  /** The body of the registry loop of `create_table`: the row of one registry line. */
  method MakeRow(line: string, predicted: Predicted, hits: seq<Hit>, primerList: seq<string>) returns (r: Result<string>)
    ensures r == RowText(line, predicted, hits, primerList)
  {
    var sample := SampleOf(line);
    if sample.Err? {
      return Err(sample.error);
    }
    var s := sample.value;
    var predictions := Lookup(predicted, s);
    if |predictions| == 0 {
      return Err(IndexOutOfRange);
    }
    var serotype := if Take(predictions[0], 3) == NoPrediction then NoPrediction else predictions[0];
    var amps, shorts := SampleAmplifications(hits, s);
    var cells := OrderAmplifications(primerList, amps, shorts);
    var observations := [s, serotype] + cells;
    return Ok(Join(observations, '\t') + "\n");
  }

  // ---------------------------------------------------------------------------
  // Header

  /** The header line is `\tSeqSero`, then a tab and a name for every primer pair. */
  lemma HeaderLayout(names: seq<string>)
    ensures HeaderText(names) == HeaderLead + Prefixed(names, '\t') + "\n"
  {
    JoinCons(HeaderLead, names, '\t');
  }

  /** With tab-free names, the header has two columns more than there are
      primer pairs: an empty one, `SeqSero`, then the names in order. */
  lemma HeaderColumns(names: seq<string>)
    requires forall i :: 0 <= i < |names| ==> '\t' !in names[i]
    ensures Split(Join(HeaderCells(names), '\t'), '\t') == ["", "SeqSero"] + names
  {
    var cols := ["", "SeqSero"] + names;
    JoinCons(HeaderLead, names, '\t');
    JoinCons("", ["SeqSero"] + names, '\t');
    JoinCons("SeqSero", names, '\t');
    assert ["", "SeqSero"] + names == [""] + (["SeqSero"] + names);
    assert Prefixed(["SeqSero"] + names, '\t') == ['\t'] + "SeqSero" + Prefixed(names, '\t') by {
      assert (["SeqSero"] + names)[1..] == names;
    }
    assert Join(HeaderCells(names), '\t') == Join(cols, '\t');
    assert forall i :: 0 <= i < |cols| ==> '\t' !in cols[i] by {
      forall i | 0 <= i < |cols|
        ensures '\t' !in cols[i]
      {
        if i >= 2 {
          assert cols[i] == names[i - 2];
        }
      }
    }
    SplitJoin(cols, '\t');
  }

  // ---------------------------------------------------------------------------
  // Serotype cell

  /** Later predictions of a sample never reach the table. */
  lemma SerotypeCellFirstOnly(first: string, later: seq<string>)
    ensures SerotypeCell([first] + later) == SerotypeCell([first])
  {
  }

  // ---------------------------------------------------------------------------
  // Amplicon cells

  lemma AmplificationsSingle(h: Hit, sample: string)
    ensures Amplifications([h], sample) == if h.sample == sample then [h.amplicon] else []
  {
    assert [h][1..] == [];
  }

  /** Hit-list order: the amplicons of two consecutive parts of the hit list
      are those of the first part followed by those of the second. */
  lemma {:induction false} AmplificationsAppend(a: seq<Hit>, b: seq<Hit>, sample: string)
    ensures Amplifications(a + b, sample) == Amplifications(a, sample) + Amplifications(b, sample)
    decreases |a|
  {
    if a == [] {
      assert a + b == b;
    } else {
      var head := if a[0].sample == sample then [a[0].amplicon] else [];
      assert (a + b)[0] == a[0];
      assert (a + b)[1..] == a[1..] + b;
      AmplificationsAppend(a[1..], b, sample);
      assert Amplifications(a + b, sample) == head + (Amplifications(a[1..], sample) + Amplifications(b, sample));
      assert head + (Amplifications(a[1..], sample) + Amplifications(b, sample)) ==
             (head + Amplifications(a[1..], sample)) + Amplifications(b, sample);
    }
  }

  lemma {:induction false} CountAppend(p: string, a: seq<Amplicon>, b: seq<Amplicon>)
    ensures Count(p, a + b) == Count(p, a) + Count(p, b)
    decreases |a|
  {
    if a == [] {
      assert a + b == b;
    } else {
      assert (a + b)[1..] == a[1..] + b;
      CountAppend(p, a[1..], b);
    }
  }

  /** A primer name is among the amplicons' names exactly when it has a product. */
  lemma {:induction false} CountPositive(p: string, amps: seq<Amplicon>)
    ensures p in Primers(amps) <==> Count(p, amps) > 0
    decreases |amps|
  {
    if amps != [] {
      CountPositive(p, amps[1..]);
      assert Primers(amps) == [amps[0].primer] + Primers(amps[1..]);
    }
  }

  /** Every cell of primer pair `p` is the formatted product of one of its
      amplicons. */
  lemma {:induction false} FormattedProducts(p: string, amps: seq<Amplicon>)
    ensures forall c :: c in Formatted(p, amps) ==> exists a :: a in amps && a.primer == p && c == Format(a)
    decreases |amps|
  {
    if amps != [] {
      FormattedProducts(p, amps[1..]);
      forall c | c in Formatted(p, amps)
        ensures exists a :: a in amps && a.primer == p && c == Format(a)
      {
        if c !in Formatted(p, amps[1..]) {
          assert amps[0] in amps && amps[0].primer == p && c == Format(amps[0]);
        } else {
          var a :| a in amps[1..] && a.primer == p && c == Format(a);
          assert a in amps;
        }
      }
    }
  }

  lemma FormattedSingle(p: string, a: Amplicon)
    ensures Formatted(p, [a]) == if a.primer == p then [Format(a)] else []
  {
    assert [a][1..] == [];
  }

  /** The cells of one primer pair keep the hit-list order of its products. */
  lemma {:induction false} FormattedAppend(p: string, a: seq<Amplicon>, b: seq<Amplicon>)
    ensures Formatted(p, a + b) == Formatted(p, a) + Formatted(p, b)
    decreases |a|
  {
    if a == [] {
      assert a + b == b;
    } else {
      assert (a + b)[1..] == a[1..] + b;
      FormattedAppend(p, a[1..], b);
    }
  }

  lemma OrderedCellsSingle(p: string, amps: seq<Amplicon>)
    ensures OrderedCells([p], amps) == PrimerCells(p, amps)
  {
    assert [p][1..] == [];
  }

  /** Primer-file order: the cells of two consecutive parts of the primer list
      are those of the first part followed by those of the second. */
  lemma {:induction false} OrderedCellsAppend(a: seq<string>, b: seq<string>, amps: seq<Amplicon>)
    ensures OrderedCells(a + b, amps) == OrderedCells(a, amps) + OrderedCells(b, amps)
    decreases |a|
  {
    if a == [] {
      assert a + b == b;
    } else {
      var head := PrimerCells(a[0], amps);
      assert (a + b)[0] == a[0];
      assert (a + b)[1..] == a[1..] + b;
      OrderedCellsAppend(a[1..], b, amps);
      assert OrderedCells(a + b, amps) == head + (OrderedCells(a[1..], amps) + OrderedCells(b, amps));
      assert head + (OrderedCells(a[1..], amps) + OrderedCells(b, amps)) ==
             (head + OrderedCells(a[1..], amps)) + OrderedCells(b, amps);
    }
  }

  /** The cells so far, extended by those of the next primer pair. */
  lemma OrderedCellsStep(primers: seq<string>, i: nat, amps: seq<Amplicon>)
    requires i < |primers|
    ensures OrderedCells(primers[..i + 1], amps) == OrderedCells(primers[..i], amps) + PrimerCells(primers[i], amps)
  {
    assert primers[..i + 1] == primers[..i] + [primers[i]];
    OrderedCellsAppend(primers[..i], [primers[i]], amps);
    OrderedCellsSingle(primers[i], amps);
  }

  /** Every primer pair gets at least one cell, so a row never has fewer cells
      than the header names primer pairs, and exactly as many precisely when no
      primer pair has more than one product for the sample. */
  lemma {:induction false} CellCountWidth(primers: seq<string>, amps: seq<Amplicon>)
    ensures CellCount(primers, amps) >= |primers|
    ensures CellCount(primers, amps) == |primers| <==> forall i :: 0 <= i < |primers| ==> Count(primers[i], amps) <= 1
    decreases |primers|
  {
    if primers != [] {
      CellCountWidth(primers[1..], amps);
      assert forall i :: 0 < i < |primers| ==> primers[i] == primers[1..][i - 1];
      if CellCount(primers, amps) == |primers| {
        forall i | 0 <= i < |primers|
          ensures Count(primers[i], amps) <= 1
        {
          if i > 0 {
            assert primers[i] == primers[1..][i - 1];
          }
        }
      }
    }
  }

  /** When no primer pair has more than one product, the cell at position `i`
      belongs to the `i`-th primer pair: `none`, or its single product. */
  lemma OrderedCellsAt(primers: seq<string>, amps: seq<Amplicon>, i: nat)
    requires forall j :: 0 <= j < |primers| ==> Count(primers[j], amps) <= 1
    requires i < |primers|
    ensures |OrderedCells(primers, amps)| == |primers|
    ensures |PrimerCells(primers[i], amps)| == 1
    ensures OrderedCells(primers, amps)[i] == PrimerCells(primers[i], amps)[0]
  {
    var pre, p, post := primers[..i], primers[i], primers[i + 1..];
    SplitAround(primers, i);
    OrderedCellsAppend(pre + [p], post, amps);
    OrderedCellsAppend(pre, [p], amps);
    OrderedCellsSingle(p, amps);
    forall j | 0 <= j < |pre|
      ensures Count(pre[j], amps) <= 1
    {
      assert pre[j] == primers[j];
    }
    CellCountSingles(pre, amps);
    CellCountSingles(primers, amps);
    assert Count(p, amps) <= 1;
    var cells := OrderedCells(pre, amps) + PrimerCells(p, amps) + OrderedCells(post, amps);
    assert OrderedCells(primers, amps) == cells;
    assert cells[i] == PrimerCells(p, amps)[0];
  }

  /** A row is exactly as wide as the primer list when no primer pair has
      more than one product. */
  lemma {:induction false} CellCountSingles(primers: seq<string>, amps: seq<Amplicon>)
    requires forall j :: 0 <= j < |primers| ==> Count(primers[j], amps) <= 1
    ensures CellCount(primers, amps) == |primers|
    decreases |primers|
  {
    if primers != [] {
      var rest := primers[1..];
      forall j | 0 <= j < |rest|
        ensures Count(rest[j], amps) <= 1
      {
        assert rest[j] == primers[j + 1];
      }
      CellCountSingles(rest, amps);
      assert Count(primers[0], amps) <= 1;
    }
  }

  /** A product of a primer pair other than `p` does not change the cells of `p`. */
  lemma PrimerCellsIgnore(p: string, a: seq<Amplicon>, x: Amplicon, b: seq<Amplicon>)
    requires x.primer != p
    ensures PrimerCells(p, a + [x] + b) == PrimerCells(p, a + b)
  {
    CountAppend(p, a + [x], b);
    CountAppend(p, a, [x]);
    CountAppend(p, a, b);
    assert [x][1..] == [];
    FormattedAppend(p, a + [x], b);
    FormattedAppend(p, a, [x]);
    FormattedAppend(p, a, b);
    FormattedSingle(p, x);
    assert Formatted(p, a) + [] == Formatted(p, a);
  }

  /** A product of a primer pair missing from the primer list changes no cell. */
  lemma {:induction false} OrderedCellsIgnore(primers: seq<string>, a: seq<Amplicon>, x: Amplicon, b: seq<Amplicon>)
    requires x.primer !in primers
    ensures OrderedCells(primers, a + [x] + b) == OrderedCells(primers, a + b)
    decreases |primers|
  {
    if primers != [] {
      PrimerCellsIgnore(primers[0], a, x, b);
      OrderedCellsIgnore(primers[1..], a, x, b);
    }
  }

  /** Only hits of the row's own sample whose primer pair is in the primer
      list affect the row: any other hit, wherever it is, changes nothing. */
  lemma IrrelevantHitIgnored(sample: string, predicted: Predicted, a: seq<Hit>, h: Hit, b: seq<Hit>, primers: seq<string>)
    requires h.sample != sample || h.amplicon.primer !in primers
    ensures Observations(sample, predicted, a + [h] + b, primers) == Observations(sample, predicted, a + b, primers)
  {
    AmplificationsAppend(a + [h], b, sample);
    AmplificationsAppend(a, [h], sample);
    AmplificationsAppend(a, b, sample);
    AmplificationsSingle(h, sample);
    var pa, pb := Amplifications(a, sample), Amplifications(b, sample);
    if h.sample == sample {
      OrderedCellsIgnore(primers, pa, h.amplicon, pb);
    } else {
      assert pa + [] == pa;
    }
  }

  /** Products of two different primer pairs may be reported in either order. */
  lemma PrimerCellsSwap(p: string, a: seq<Amplicon>, x: Amplicon, y: Amplicon, b: seq<Amplicon>)
    requires x.primer != y.primer
    ensures PrimerCells(p, a + [x, y] + b) == PrimerCells(p, a + [y, x] + b)
  {
    var xy, yx := [x, y], [y, x];
    assert xy == [x] + [y] && yx == [y] + [x];
    CountAppend(p, a + xy, b);
    CountAppend(p, a, xy);
    CountAppend(p, [x], [y]);
    CountAppend(p, a + yx, b);
    CountAppend(p, a, yx);
    CountAppend(p, [y], [x]);
    assert [x][1..] == [] && [y][1..] == [];
    FormattedAppend(p, a + xy, b);
    FormattedAppend(p, a, xy);
    FormattedAppend(p, [x], [y]);
    FormattedAppend(p, a + yx, b);
    FormattedAppend(p, a, yx);
    FormattedAppend(p, [y], [x]);
    FormattedSingle(p, x);
    FormattedSingle(p, y);
    assert Formatted(p, xy) == Formatted(p, yx);
  }

  lemma {:induction false} OrderedCellsSwap(primers: seq<string>, a: seq<Amplicon>, x: Amplicon, y: Amplicon, b: seq<Amplicon>)
    requires x.primer != y.primer
    ensures OrderedCells(primers, a + [x, y] + b) == OrderedCells(primers, a + [y, x] + b)
    decreases |primers|
  {
    if primers != [] {
      PrimerCellsSwap(primers[0], a, x, y, b);
      OrderedCellsSwap(primers[1..], a, x, y, b);
    }
  }

  /** The amplicons of two adjacent hits of the same sample, in hit order. */
  lemma AmplificationsPair(h1: Hit, h2: Hit, sample: string)
    ensures Amplifications([h1, h2], sample) ==
            (if h1.sample == sample then [h1.amplicon] else []) + (if h2.sample == sample then [h2.amplicon] else [])
  {
    assert [h1, h2] == [h1] + [h2];
    AmplificationsAppend([h1], [h2], sample);
    AmplificationsSingle(h1, sample);
    AmplificationsSingle(h2, sample);
  }

  lemma AmplificationsAround(a: seq<Hit>, mid: seq<Hit>, b: seq<Hit>, sample: string)
    ensures Amplifications(a + mid + b, sample) ==
            Amplifications(a, sample) + Amplifications(mid, sample) + Amplifications(b, sample)
  {
    assert a + mid + b == a + (mid + b);
    AmplificationsAppend(a, mid + b, sample);
    AmplificationsAppend(mid, b, sample);
  }

  /** The amplicon cells of a sample do not change when two adjacent hits of
      different primer pairs trade places. */
  lemma CellsSwapHits(sample: string, a: seq<Hit>, h1: Hit, h2: Hit, b: seq<Hit>, primers: seq<string>)
    requires h1.amplicon.primer != h2.amplicon.primer
    ensures OrderedCells(primers, Amplifications(a + [h1, h2] + b, sample)) ==
            OrderedCells(primers, Amplifications(a + [h2, h1] + b, sample))
  {
    var pa, pb := Amplifications(a, sample), Amplifications(b, sample);
    AmplificationsAround(a, [h1, h2], b, sample);
    AmplificationsAround(a, [h2, h1], b, sample);
    AmplificationsPair(h1, h2, sample);
    AmplificationsPair(h2, h1, sample);
    if h1.sample == sample && h2.sample == sample {
      var x, y := h1.amplicon, h2.amplicon;
      assert Amplifications(a + [h1, h2] + b, sample) == pa + [x, y] + pb;
      assert Amplifications(a + [h2, h1] + b, sample) == pa + [y, x] + pb;
      OrderedCellsSwap(primers, pa, x, y, pb);
    } else {
      assert Amplifications([h1, h2], sample) == Amplifications([h2, h1], sample);
    }
  }

  /** Column order does not depend on the order in which products of
      different primer pairs were found: swapping two adjacent such hits leaves
      every row unchanged. */
  lemma HitOrderIrrelevant(sample: string, predicted: Predicted, a: seq<Hit>, h1: Hit, h2: Hit, b: seq<Hit>, primers: seq<string>)
    requires h1.amplicon.primer != h2.amplicon.primer
    ensures Observations(sample, predicted, a + [h1, h2] + b, primers) == Observations(sample, predicted, a + [h2, h1] + b, primers)
  {
    CellsSwapHits(sample, a, h1, h2, b, primers);
  }

  // ---------------------------------------------------------------------------
  // Rows

  /** A row holds the sample, the serotype and two cells more than the primer
      pairs' products, with at least one per pair; it is exactly as wide as the
      header list plus one when no primer pair has more than one product. */
  lemma RowWidth(sample: string, predicted: Predicted, hits: seq<Hit>, primers: seq<string>)
    requires Observations(sample, predicted, hits, primers).Ok?
    ensures var cells := Observations(sample, predicted, hits, primers).value;
            var amps := Amplifications(hits, sample);
            && cells[0] == sample
            && |cells| == 2 + CellCount(primers, amps)
            && (|cells| == |HeaderCells(primers)| + 1 <==> forall i :: 0 <= i < |primers| ==> Count(primers[i], amps) <= 1)
  {
    CellCountWidth(primers, Amplifications(hits, sample));
  }

  /** Every row written starts with its sample name and a tab. */
  lemma RowStartsWithSample(line: string, predicted: Predicted, hits: seq<Hit>, primers: seq<string>)
    requires RowText(line, predicted, hits, primers).Ok?
    ensures SampleOf(line).Ok?
    ensures SampleOf(line).value + "\t" <= RowText(line, predicted, hits, primers).value
  {
    var s := SampleOf(line).value;
    var cells := Observations(s, predicted, hits, primers).value;
    assert |cells| >= 2 && cells[0] == s;
    var rest := Join(cells[1..], '\t');
    assert Join(cells, '\t') == s + ['\t'] + rest;
    assert RowText(line, predicted, hits, primers).value == s + "\t" + (rest + "\n");
  }

  /** With tab-free cells, the written row (without its newline) splits on
      tabs back into the sample, the serotype cell and the amplicon cells. */
  lemma RowColumns(line: string, predicted: Predicted, hits: seq<Hit>, primers: seq<string>)
    requires RowText(line, predicted, hits, primers).Ok?
    ensures SampleOf(line).Ok? && Observations(SampleOf(line).value, predicted, hits, primers).Ok?
    ensures var text := RowText(line, predicted, hits, primers).value;
            var cells := Observations(SampleOf(line).value, predicted, hits, primers).value;
            && |text| > 0 && text[|text| - 1] == '\n'
            && ((forall i :: 0 <= i < |cells| ==> '\t' !in cells[i]) ==> Split(text[..|text| - 1], '\t') == cells)
  {
    var cells := Observations(SampleOf(line).value, predicted, hits, primers).value;
    var text := RowText(line, predicted, hits, primers).value;
    assert text == Join(cells, '\t') + "\n";
    assert text[..|text| - 1] == Join(cells, '\t');
    if forall i :: 0 <= i < |cells| ==> '\t' !in cells[i] {
      SplitJoin(cells, '\t');
    }
  }

  /** In the written text, a row with tab-free cells has as many tab-separated
      columns as the header with tab-free primer names exactly when no primer
      pair has more than one product for the row's sample. */
  lemma RowMatchesHeader(line: string, predicted: Predicted, hits: seq<Hit>, primers: seq<string>)
    requires RowText(line, predicted, hits, primers).Ok?
    requires forall i :: 0 <= i < |primers| ==> '\t' !in primers[i]
    requires var cells := Observations(SampleOf(line).value, predicted, hits, primers).value;
             forall i :: 0 <= i < |cells| ==> '\t' !in cells[i]
    ensures var text := RowText(line, predicted, hits, primers).value;
            var header := HeaderText(primers);
            var amps := Amplifications(hits, SampleOf(line).value);
            |Split(text[..|text| - 1], '\t')| == |Split(header[..|header| - 1], '\t')| <==>
            forall i :: 0 <= i < |primers| ==> Count(primers[i], amps) <= 1
  {
    var header := HeaderText(primers);
    assert header[..|header| - 1] == Join(HeaderCells(primers), '\t');
    HeaderColumns(primers);
    RowColumns(line, predicted, hits, primers);
    RowWidth(SampleOf(line).value, predicted, hits, primers);
  }

  lemma RowsSingle(line: string, predicted: Predicted, hits: seq<Hit>, primers: seq<string>)
    ensures Rows([line], predicted, hits, primers) ==
            match RowText(line, predicted, hits, primers)
            case Err(e) => Report([], Failed(e))
            case Ok(text) => Report([text], Done)
  {
    assert [line][1..] == [];
  }

  /** Rows are written in registry order, and a failing line stops the run. */
  lemma {:induction false} RowsAppend(a: Lines, b: Lines, predicted: Predicted, hits: seq<Hit>, primers: seq<string>)
    ensures var ra := Rows(a, predicted, hits, primers);
            Rows(a + b, predicted, hits, primers) ==
            if ra.outcome == Done
            then Report(ra.written + Rows(b, predicted, hits, primers).written, Rows(b, predicted, hits, primers).outcome)
            else ra
    decreases |a|
  {
    if a == [] {
      assert a + b == b;
    } else {
      assert (a + b)[1..] == a[1..] + b;
      assert (a + b)[0] == a[0];
      var row := RowText(a[0], predicted, hits, primers);
      if row.Ok? {
        RowsAppend(a[1..], b, predicted, hits, primers);
        var rest, restB := Rows(a[1..], predicted, hits, primers), Rows(b, predicted, hits, primers);
        assert Rows(a, predicted, hits, primers) == Report([row.value] + rest.written, rest.outcome);
        assert Rows(a + b, predicted, hits, primers).written == [row.value] + Rows(a[1..] + b, predicted, hits, primers).written;
        if rest.outcome == Done {
          assert [row.value] + (rest.written + restB.written) == ([row.value] + rest.written) + restB.written;
        }
      }
    }
  }

  /** A run that completes writes exactly one row per registry line, in
      registry order; a run that fails at a registry line has written the rows
      of every line before it and nothing of its own. */
  lemma {:induction false} RowsOutcome(reg: Lines, predicted: Predicted, hits: seq<Hit>, primers: seq<string>)
    ensures var rows := Rows(reg, predicted, hits, primers);
            rows.outcome == Done ==>
              |rows.written| == |reg| &&
              forall i :: 0 <= i < |reg| ==> RowText(reg[i], predicted, hits, primers) == Ok(rows.written[i])
    ensures var rows := Rows(reg, predicted, hits, primers);
            rows.outcome.Failed? ==>
              exists k :: 0 <= k < |reg| && |rows.written| == k &&
                          RowText(reg[k], predicted, hits, primers) == Err(rows.outcome.error) &&
                          forall i :: 0 <= i < k ==> RowText(reg[i], predicted, hits, primers) == Ok(rows.written[i])
  {
    var rows := Rows(reg, predicted, hits, primers);
    if rows.outcome == Done {
      RowsDone(reg, predicted, hits, primers);
    } else {
      RowsFailedAt(reg, predicted, hits, primers);
    }
  }

  lemma {:induction false} RowsDone(reg: Lines, predicted: Predicted, hits: seq<Hit>, primers: seq<string>)
    requires Rows(reg, predicted, hits, primers).outcome == Done
    ensures |Rows(reg, predicted, hits, primers).written| == |reg|
    ensures forall i :: 0 <= i < |reg| ==>
              RowText(reg[i], predicted, hits, primers) == Ok(Rows(reg, predicted, hits, primers).written[i])
    decreases |reg|
  {
    if reg != [] {
      var row := RowText(reg[0], predicted, hits, primers);
      assert row.Ok?;
      var rest := Rows(reg[1..], predicted, hits, primers);
      var written := Rows(reg, predicted, hits, primers).written;
      assert written == [row.value] + rest.written;
      RowsDone(reg[1..], predicted, hits, primers);
      forall i | 0 <= i < |reg|
        ensures RowText(reg[i], predicted, hits, primers) == Ok(written[i])
      {
        if i > 0 {
          assert reg[i] == reg[1..][i - 1];
          assert written[i] == rest.written[i - 1];
        }
      }
    }
  }

  lemma {:induction false} RowsFailedAt(reg: Lines, predicted: Predicted, hits: seq<Hit>, primers: seq<string>)
    requires Rows(reg, predicted, hits, primers).outcome.Failed?
    ensures var rows := Rows(reg, predicted, hits, primers);
            exists k :: 0 <= k < |reg| && |rows.written| == k &&
                        RowText(reg[k], predicted, hits, primers) == Err(rows.outcome.error) &&
                        forall i :: 0 <= i < k ==> RowText(reg[i], predicted, hits, primers) == Ok(rows.written[i])
    decreases |reg|
  {
    var rows := Rows(reg, predicted, hits, primers);
    var row := RowText(reg[0], predicted, hits, primers);
    if row.Err? {
      assert rows == Report([], Failed(row.error));
      assert 0 <= 0 < |reg| && |rows.written| == 0 && RowText(reg[0], predicted, hits, primers) == Err(rows.outcome.error);
    } else {
      var rest := Rows(reg[1..], predicted, hits, primers);
      assert rows == Report([row.value] + rest.written, rest.outcome);
      RowsFailedAt(reg[1..], predicted, hits, primers);
      var k :| 0 <= k < |reg| - 1 && |rest.written| == k &&
               RowText(reg[1..][k], predicted, hits, primers) == Err(rest.outcome.error) &&
               forall i :: 0 <= i < k ==> RowText(reg[1..][i], predicted, hits, primers) == Ok(rest.written[i]);
      assert reg[1..][k] == reg[k + 1];
      forall i | 0 <= i < k + 1
        ensures RowText(reg[i], predicted, hits, primers) == Ok(rows.written[i])
      {
        if i > 0 {
          assert reg[i] == reg[1..][i - 1];
          assert rows.written[i] == rest.written[i - 1];
        }
      }
      assert 0 <= k + 1 < |reg| && |rows.written| == k + 1 &&
             RowText(reg[k + 1], predicted, hits, primers) == Err(rows.outcome.error);
    }
  }

  /** Two registry lines against primer pairs `p1` and `p2`: the first sample
      has one serotype call and one product whose length kept its newline, the
      second has no serotype call. The first row is written with the newline
      inside its `p1` cell, and the second line stops the run. */
  lemma TwoSampleRows()
    ensures Rows(["SRR1\ts1\n", "SRR2\ts2\n"], map["s1" := ["Typhimurium"]],
                 [Hit("s1", Amplicon("p1", "412\n"))], ["p1", "p2"]) ==
            Report(["s1\tTyphimurium\tp1(412\n)\tnone\n"], Failed(IndexOutOfRange))
  {
    var predicted := map["s1" := ["Typhimurium"]];
    var hits := [Hit("s1", Amplicon("p1", "412\n"))];
    var reg := ["SRR1\ts1\n", "SRR2\ts2\n"];
    FirstSampleRow();
    SecondSampleRow();
    assert reg[0] == "SRR1\ts1\n" && reg[1..] == ["SRR2\ts2\n"];
    RowsSingle("SRR2\ts2\n", predicted, hits, ["p1", "p2"]);
  }

  lemma FirstSampleRow()
    ensures RowText("SRR1\ts1\n", map["s1" := ["Typhimurium"]], [Hit("s1", Amplicon("p1", "412\n"))], ["p1", "p2"]) ==
            Ok("s1\tTyphimurium\tp1(412\n)\tnone\n")
  {
    SampleOfScenario("SRR1", "s1");
    assert "SRR1" + "\t" + "s1" + "\n" == "SRR1\ts1\n";
    FirstSampleCells();
    RowTextOf("SRR1\ts1\n", map["s1" := ["Typhimurium"]], [Hit("s1", Amplicon("p1", "412\n"))], ["p1", "p2"],
              "s1", "Typhimurium", ["p1(412\n)", "none"]);
    FirstSampleJoin();
  }

  lemma FirstSampleJoin()
    ensures Join(["s1", "Typhimurium"] + ["p1(412\n)", "none"], '\t') + "\n" == "s1\tTyphimurium\tp1(412\n)\tnone\n"
  {
    var cells := ["s1", "Typhimurium", "p1(412\n)", "none"];
    assert ["s1", "Typhimurium"] + ["p1(412\n)", "none"] == cells;
    JoinFour(cells, '\t');
  }

  lemma JoinFour(cells: seq<string>, sep: char)
    requires |cells| == 4
    ensures Join(cells, sep) == cells[0] + [sep] + cells[1] + [sep] + cells[2] + [sep] + cells[3]
  {
    var t1, t2, t3 := cells[1..], cells[2..], cells[3..];
    assert t1[1..] == t2 && t2[1..] == t3;
    assert t1[0] == cells[1] && t2[0] == cells[2] && t3[0] == cells[3];
    assert Join(t3, sep) == cells[3];
    assert Join(t2, sep) == cells[2] + [sep] + cells[3];
    assert Join(t1, sep) == cells[1] + [sep] + (cells[2] + [sep] + cells[3]);
  }

  /** The row of a line naming `sample`, given its serotype cell and amplicon cells. */
  lemma RowTextOf(line: string, predicted: Predicted, hits: seq<Hit>, primers: seq<string>,
                  sample: string, serotype: string, cells: seq<string>)
    requires SampleOf(line) == Ok(sample)
    requires SerotypeCell(Lookup(predicted, sample)) == Ok(serotype)
    requires OrderedCells(primers, Amplifications(hits, sample)) == cells
    ensures RowText(line, predicted, hits, primers) == Ok(Join([sample, serotype] + cells, '\t') + "\n")
  {
  }

  lemma FirstSampleCells()
    ensures SerotypeCell(Lookup(map["s1" := ["Typhimurium"]], "s1")) == Ok("Typhimurium")
    ensures OrderedCells(["p1", "p2"], Amplifications([Hit("s1", Amplicon("p1", "412\n"))], "s1")) ==
            ["p1(412\n)", "none"]
  {
    assert Take("Typhimurium", 3) == "Typ";
    var amps := [Amplicon("p1", "412\n")];
    AmplificationsSingle(Hit("s1", amps[0]), "s1");
    assert [amps[0]][1..] == [];
    assert Count("p1", amps) == 1 && Count("p2", amps) == 0;
    FormattedSingle("p1", amps[0]);
    assert Format(amps[0]) == "p1(412\n)";
    assert PrimerCells("p1", amps) == ["p1(412\n)"];
    assert PrimerCells("p2", amps) == ["none"];
    assert ["p1", "p2"] == ["p1"] + ["p2"];
    OrderedCellsAppend(["p1"], ["p2"], amps);
    OrderedCellsSingle("p1", amps);
    OrderedCellsSingle("p2", amps);
  }

  lemma SecondSampleRow()
    ensures RowText("SRR2\ts2\n", map["s1" := ["Typhimurium"]], [Hit("s1", Amplicon("p1", "412\n"))], ["p1", "p2"]) ==
            Err(IndexOutOfRange)
  {
    SampleOfScenario("SRR2", "s2");
    assert "SRR2" + "\t" + "s2" + "\n" == "SRR2\ts2\n";
    assert Lookup(map["s1" := ["Typhimurium"]], "s2") == [];
    RowTextWithoutCall("SRR2\ts2\n", map["s1" := ["Typhimurium"]], [Hit("s1", Amplicon("p1", "412\n"))], ["p1", "p2"], "s2");
  }

  /** The row of a line naming a sample without a serotype call fails. */
  lemma RowTextWithoutCall(line: string, predicted: Predicted, hits: seq<Hit>, primers: seq<string>, sample: string)
    requires SampleOf(line) == Ok(sample)
    requires Lookup(predicted, sample) == []
    ensures RowText(line, predicted, hits, primers) == Err(IndexOutOfRange)
  {
  }

  lemma SampleOfScenario(accession: string, name: string)
    requires '\t' !in accession && '\t' !in name && '\n' !in accession + name
    ensures SampleOf(accession + "\t" + name + "\n") == Ok(name)
  {
    RegistryLineSample(accession, name, "");
    assert accession + "\t" + name + "" + "\n" == accession + "\t" + name + "\n";
  }

  /** The header is written first unless the primer file is missing; then one
      row per registry line, after which the run is done, or the rows before
      the first failing line. */
  lemma TableOutcome(fs: FileSystem, infile: string, predicted: Predicted, hits: seq<Hit>, primerfile: string)
    ensures var t := Table(fs, infile, predicted, hits, primerfile);
            primerfile !in fs ==> t == Report([], Failed(FileNotFound(primerfile)))
    ensures var t := Table(fs, infile, predicted, hits, primerfile);
            primerfile in fs ==> |t.written| >= 1 && t.written[0] == HeaderText(PrimerNames(fs[primerfile]))
    ensures var t := Table(fs, infile, predicted, hits, primerfile);
            primerfile in fs && infile in fs && t.outcome == Done ==> |t.written| == |fs[infile]| + 1
    ensures var t := Table(fs, infile, predicted, hits, primerfile);
            primerfile in fs && infile in fs && t.outcome == Done ==>
              forall i :: 0 <= i < |fs[infile]| ==>
                RowText(fs[infile][i], predicted, hits, PrimerNames(fs[primerfile])) == Ok(t.written[i + 1])
    ensures var t := Table(fs, infile, predicted, hits, primerfile);
            primerfile in fs && infile !in fs ==>
              t == Report([HeaderText(PrimerNames(fs[primerfile]))], Failed(FileNotFound(infile)))
  {
    if primerfile in fs && infile in fs {
      RowsOutcome(fs[infile], predicted, hits, PrimerNames(fs[primerfile]));
    }
  }
}
