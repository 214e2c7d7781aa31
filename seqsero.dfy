/** `make_SeqSero_dict`: the serotype predictions of every registry sample,
    read from the sample's `<sample>_seqsero.out` report. */
module SeqSero {
  import opened Text
  import opened Files

  /** The first field of the one report line that carries a prediction. */
  const PredictionLabel := "Predicted serotype(s):"

  /** Per-sample prediction lists, as the `defaultdict(list)` holds them: a
      sample is a key only once something was appended for it. */
  type Predicted = map<string, seq<string>>

  /** The serotype report of `sample`, relative to the working directory. */
  function SeqSeroPath(sample: string): string
  {
    sample + "_seqsero.out"
  }

  /** The tab-separated fields of a report line, terminator stripped. */
  function ReportFields(line: string): seq<string>
  {
    Split(Strip(line, '\n'), '\t')
  }

  predicate IsPredictionLine(line: string)
  {
    ReportFields(line)[0] == PredictionLabel
  }

  /** What one report line appends to its sample's list: nothing, unless its
      first field is the prediction label; then its second field, which must exist. */
  function LinePredictions(line: string): Result<seq<string>>
  {
    var fields := ReportFields(line);
    if fields[0] != PredictionLabel then Ok([])
    else if |fields| < 2 then Err(IndexOutOfRange)
    else Ok([fields[1]])
  }

  /** The predictions of a whole report, in file order. */
  function Predictions(lines: Lines): Result<seq<string>>
  {
    if lines == [] then Ok([]) else Chain(LinePredictions(lines[0]), Predictions(lines[1..]))
  }

  /** Python `predictions[sample]` on the `defaultdict(list)`. */
  function Lookup(d: Predicted, sample: string): seq<string>
  {
    if sample in d then d[sample] else []
  }

  /** `d` after `d[sample].append(p)` for every `p` of `ps`, in order. */
  function Extend(d: Predicted, sample: string, ps: seq<string>): (r: Predicted)
    ensures Lookup(r, sample) == Lookup(d, sample) + ps
    ensures forall k :: k != sample ==> Lookup(r, k) == Lookup(d, k)
    ensures r.Keys == if ps == [] then d.Keys else d.Keys + {sample}
  {
    if ps == [] then d else d[sample := Lookup(d, sample) + ps]
  }

  /** The sample a registry line names and the predictions of its report; the
      report must exist. */
  function SampleReport(fs: FileSystem, line: string): Result<(string, seq<string>)>
  {
    match SampleOf(line)
    case Err(e) => Err(e)
    case Ok(sample) =>
      if SeqSeroPath(sample) !in fs then Err(FileNotFound(SeqSeroPath(sample)))
      else
        match Predictions(fs[SeqSeroPath(sample)])
        case Err(e) => Err(e)
        case Ok(ps) => Ok((sample, ps))
  }

  /** The dictionary `d` after one more registry line has been processed. */
  function Step(fs: FileSystem, d: Predicted, line: string): Result<Predicted>
  {
    match SampleReport(fs, line)
    case Err(e) => Err(e)
    case Ok(report) => Ok(Extend(d, report.0, report.1))
  }

  /** The dictionary after the registry lines `reg` have been processed in order. */
  function Collect(fs: FileSystem, reg: Lines): Result<Predicted>
    decreases |reg|
  {
    if reg == [] then Ok(map[])
    else
      match Collect(fs, reg[..|reg| - 1])
      case Err(e) => Err(e)
      case Ok(d) => Step(fs, d, reg[|reg| - 1])
  }

  /** `make_SeqSero_dict(infile)`. */
  function SeqSeroDict(fs: FileSystem, infile: string): Result<Predicted>
  {
    if infile !in fs then Err(FileNotFound(infile)) else Collect(fs, fs[infile])
  }

  /** The predictions of `sample` that one registry line contributes. */
  function Contribution(fs: FileSystem, line: string, sample: string): seq<string>
  {
    match SampleReport(fs, line)
    case Ok(report) => if report.0 == sample then report.1 else []
    case Err(_) => []
  }

  /** Every prediction of `sample` that the registry lines `reg` contribute, in
      registry order and, within one report, in file order. */
  function PredictionsFor(fs: FileSystem, reg: Lines, sample: string): seq<string>
  {
    if reg == [] then [] else Contribution(fs, reg[0], sample) + PredictionsFor(fs, reg[1..], sample)
  }

  /** The outer loop of `make_SeqSero_dict`: every registry line in order. */
  method MakeSeqSeroDict(fs: FileSystem, infile: string) returns (r: Result<Predicted>)
    ensures r == SeqSeroDict(fs, infile)
  {
    if infile !in fs {
      return Err(FileNotFound(infile));
    }
    var registry := fs[infile];
    var results: Predicted := map[];
    var i := 0;
    while i < |registry|
      invariant 0 <= i <= |registry|
      invariant Collect(fs, registry[..i]) == Ok(results)
    {
      assert registry[..i + 1][..i] == registry[..i];
      var next := AddReport(fs, results, registry[i]);
      if next.Err? {
        CollectErrorPersists(fs, registry, i + 1);
        return next;
      }
      results := next.value;
      i := i + 1;
    }
    assert registry[..i] == registry;
    return Ok(results);
  }

  /** The inner loop of `make_SeqSero_dict`: open the report of the sample a
      registry line names and append the value of every prediction line to the
      sample's list. */
  method AddReport(fs: FileSystem, d: Predicted, line: string) returns (r: Result<Predicted>)
    ensures r == Step(fs, d, line)
  {
    var sample := SampleOf(line);
    if sample.Err? {
      return Err(sample.error);
    }
    var s := sample.value;
    var path := SeqSeroPath(s);
    if path !in fs {
      return Err(FileNotFound(path));
    }
    var report := fs[path];
    var results := d;
    var j := 0;
    while j < |report|
      invariant 0 <= j <= |report|
      invariant Predictions(report[..j]).Ok?
      invariant results == Extend(d, s, Predictions(report[..j]).value)
    {
      assert report[..j + 1] == report[..j] + [report[j]];
      PredictionsAppend(report[..j], [report[j]]);
      PredictionsSingle(report[j]);
      var fields := Split(Strip(report[j], '\n'), '\t');
      if fields[0] == PredictionLabel {
        if |fields| < 2 {
          PredictionsAppend(report[..j + 1], report[j + 1..]);
          SplitAt(report, j + 1);
          return Err(IndexOutOfRange);
        }
        ExtendTwice(d, s, Predictions(report[..j]).value, [fields[1]]);
        results := results[s := Lookup(results, s) + [fields[1]]];
      } else {
        assert Predictions(report[..j]).value + [] == Predictions(report[..j]).value;
      }
      j := j + 1;
    }
    assert report[..j] == report;
    return Ok(results);
  }

  /** Once a prefix of the registry fails, the whole run fails with that error. */
  lemma {:induction false} CollectErrorPersists(fs: FileSystem, reg: Lines, n: nat)
    requires n <= |reg|
    requires Collect(fs, reg[..n]).Err?
    ensures Collect(fs, reg) == Collect(fs, reg[..n])
    decreases |reg|
  {
    if n < |reg| {
      assert reg[..|reg| - 1][..n] == reg[..n];
      CollectErrorPersists(fs, reg[..|reg| - 1], n);
    } else {
      assert reg[..n] == reg;
    }
  }

  /** Report order: the predictions of two consecutive parts of a report are
      those of the first part followed by those of the second. */
  lemma {:induction false} PredictionsAppend(a: Lines, b: Lines)
    ensures Predictions(a + b) == Chain(Predictions(a), Predictions(b))
    decreases |a|
  {
    if a == [] {
      assert a + b == b;
      ChainUnit(Predictions(b));
    } else {
      assert (a + b)[1..] == a[1..] + b;
      PredictionsAppend(a[1..], b);
      ChainAssociative(LinePredictions(a[0]), Predictions(a[1..]), Predictions(b));
    }
  }

  /** A line whose first field is not the prediction label changes nothing. */
  lemma OtherLineIgnored(a: Lines, line: string, b: Lines)
    requires !IsPredictionLine(line)
    ensures Predictions(a + [line] + b) == Predictions(a + b)
  {
    PredictionsAppend(a + [line], b);
    PredictionsAppend(a, [line]);
    PredictionsAppend(a, b);
    assert Predictions([line]) == Chain(Ok([]), Ok([]));
    ChainUnit(Predictions(a));
  }

  /** A prediction line appends its second field after everything before it. */
  lemma PredictionLineAppended(a: Lines, line: string)
    requires IsPredictionLine(line) && |ReportFields(line)| >= 2
    requires Predictions(a).Ok?
    ensures Predictions(a + [line]) == Ok(Predictions(a).value + [ReportFields(line)[1]])
  {
    PredictionsAppend(a, [line]);
    PredictionsSingle(line);
  }

  lemma PredictionsSingle(line: string)
    ensures Predictions([line]) == LinePredictions(line)
  {
    assert [line][1..] == [];
    ChainUnit(LinePredictions(line));
  }

  lemma ExtendTwice(d: Predicted, sample: string, a: seq<string>, b: seq<string>)
    ensures Extend(Extend(d, sample, a), sample, b) == Extend(d, sample, a + b)
  {
    if a == [] {
      assert a + b == b;
    } else if b == [] {
      assert a + b == a;
    } else {
      assert Lookup(d, sample) + a + b == Lookup(d, sample) + (a + b);
    }
  }

  /** A report fails exactly when one of its prediction lines has no second field. */
  lemma {:induction false} PredictionsFailure(lines: Lines)
    ensures Predictions(lines).Err? <==>
            exists i :: 0 <= i < |lines| && IsPredictionLine(lines[i]) && |ReportFields(lines[i])| < 2
    ensures Predictions(lines).Err? ==> Predictions(lines).error == IndexOutOfRange
    decreases |lines|
  {
    if lines != [] {
      PredictionsFailure(lines[1..]);
      if Predictions(lines[1..]).Err? {
        var i :| 0 <= i < |lines| - 1 && IsPredictionLine(lines[1..][i]) && |ReportFields(lines[1..][i])| < 2;
        assert lines[1..][i] == lines[i + 1];
      }
      forall i | 0 < i < |lines|
        ensures lines[i] == lines[1..][i - 1]
      {
      }
    }
  }

  /** The label line written as `Predicted serotype(s):<TAB>value\n` yields `value`. */
  lemma PredictionLineValue(value: string)
    requires '\t' !in value && '\n' !in value
    ensures LinePredictions(PredictionLabel + "\t" + value + "\n") == Ok([value])
  {
    var body := PredictionLabel + "\t" + value;
    assert '\n' !in PredictionLabel;
    assert '\t' !in PredictionLabel;
    assert '\n' !in body by {
      assert forall k :: 0 <= k < |body| ==> body[k] == (if k < |PredictionLabel| then PredictionLabel[k] else if k == |PredictionLabel| then '\t' else value[k - |PredictionLabel| - 1]);
    }
    assert body + "\n" == PredictionLabel + "\t" + value + "\n";
    StripTerminator(body, '\n');
    assert body == PredictionLabel + ['\t'] + value;
    SplitCons(PredictionLabel, '\t', value);
    SplitSingle(value, '\t');
  }

  /** The run succeeds exactly when every registry line names a sample whose
      report exists and is well formed; otherwise it stops with the error of the
      first registry line that is not. */
  lemma {:induction false} CollectOutcome(fs: FileSystem, reg: Lines)
    ensures Collect(fs, reg).Ok? <==> forall i :: 0 <= i < |reg| ==> SampleReport(fs, reg[i]).Ok?
    ensures Collect(fs, reg).Err? ==>
              exists i :: 0 <= i < |reg| && SampleReport(fs, reg[i]) == Err(Collect(fs, reg).error) &&
                          forall j :: 0 <= j < i ==> SampleReport(fs, reg[j]).Ok?
  {
    CollectSucceeds(fs, reg);
    if Collect(fs, reg).Err? {
      CollectFailsAt(fs, reg);
    }
  }

  lemma {:induction false} CollectSucceeds(fs: FileSystem, reg: Lines)
    ensures Collect(fs, reg).Ok? <==> ReportsReadable(fs, reg)
    decreases |reg|
  {
    if reg != [] {
      var init, last := reg[..|reg| - 1], reg[|reg| - 1];
      CollectSucceeds(fs, init);
      CollectLast(fs, reg);
      if Collect(fs, init).Ok? {
        StepOutcome(fs, Collect(fs, init).value, last);
      }
      ReportsReadableLast(fs, reg);
    }
  }

  /** Every registry line names a sample whose serotype report exists and is
      well formed. */
  predicate ReportsReadable(fs: FileSystem, reg: Lines)
  {
    forall i :: 0 <= i < |reg| ==> SampleReport(fs, reg[i]).Ok?
  }

  lemma ReportsReadableLast(fs: FileSystem, reg: Lines)
    requires reg != []
    ensures ReportsReadable(fs, reg) <==>
            ReportsReadable(fs, reg[..|reg| - 1]) && SampleReport(fs, reg[|reg| - 1]).Ok?
  {
    var init := reg[..|reg| - 1];
    assert forall i :: 0 <= i < |init| ==> init[i] == reg[i];
  }

  lemma {:induction false} CollectFailsAt(fs: FileSystem, reg: Lines)
    requires Collect(fs, reg).Err?
    ensures exists i :: 0 <= i < |reg| && SampleReport(fs, reg[i]) == Err(Collect(fs, reg).error) &&
                        forall j :: 0 <= j < i ==> SampleReport(fs, reg[j]).Ok?
    decreases |reg|
  {
    var init, last := reg[..|reg| - 1], reg[|reg| - 1];
    CollectLast(fs, reg);
    if Collect(fs, init).Err? {
      CollectFailsAt(fs, init);
      var i :| 0 <= i < |init| && SampleReport(fs, init[i]) == Err(Collect(fs, init).error) &&
               forall j :: 0 <= j < i ==> SampleReport(fs, init[j]).Ok?;
      assert init[i] == reg[i];
      forall j | 0 <= j < i
        ensures SampleReport(fs, reg[j]).Ok?
      {
        assert init[j] == reg[j];
      }
    } else {
      StepOutcome(fs, Collect(fs, init).value, last);
      CollectSucceeds(fs, init);
      assert ReportsReadable(fs, init);
      forall j | 0 <= j < |reg| - 1
        ensures SampleReport(fs, reg[j]).Ok?
      {
        assert init[j] == reg[j];
      }
      assert SampleReport(fs, reg[|reg| - 1]) == Err(Collect(fs, reg).error);
    }
  }

  /** The dictionary after a non-empty registry: that of its front, extended by
      its last line unless the front already failed. */
  lemma CollectLast(fs: FileSystem, reg: Lines)
    requires reg != []
    ensures Collect(fs, reg) ==
            match Collect(fs, reg[..|reg| - 1])
            case Err(e) => Err(e)
            case Ok(d) => Step(fs, d, reg[|reg| - 1])
  {
  }

  /** One more registry line fails exactly when its own sample or report does. */
  lemma StepOutcome(fs: FileSystem, d: Predicted, line: string)
    ensures Step(fs, d, line).Ok? <==> SampleReport(fs, line).Ok?
    ensures Step(fs, d, line).Err? ==> Step(fs, d, line).error == SampleReport(fs, line).error
  {
  }

  /** What the dictionary holds for a sample: the predictions of every registry
      line naming it, concatenated in registry order; it is a key exactly when
      there is at least one. */
  lemma {:induction false} CollectLookup(fs: FileSystem, reg: Lines, sample: string)
    requires Collect(fs, reg).Ok?
    ensures Lookup(Collect(fs, reg).value, sample) == PredictionsFor(fs, reg, sample)
    ensures sample in Collect(fs, reg).value <==> PredictionsFor(fs, reg, sample) != []
    decreases |reg|
  {
    if reg != [] {
      var init := reg[..|reg| - 1];
      var last := reg[|reg| - 1];
      assert Collect(fs, init).Ok?;
      var d := Collect(fs, init).value;
      assert Collect(fs, reg) == Step(fs, d, last);
      CollectLookup(fs, init, sample);
      StepLookup(fs, d, last, sample);
      InitLast(reg);
      PredictionsForAppend(fs, init, [last], sample);
      PredictionsForSingle(fs, last, sample);
    }
  }

  lemma PredictionsForSingle(fs: FileSystem, line: string, sample: string)
    ensures PredictionsFor(fs, [line], sample) == Contribution(fs, line, sample)
  {
    assert [line][1..] == [];
    assert Contribution(fs, line, sample) + [] == Contribution(fs, line, sample);
  }

  lemma StepLookup(fs: FileSystem, d: Predicted, line: string, sample: string)
    requires Step(fs, d, line).Ok?
    ensures Lookup(Step(fs, d, line).value, sample) == Lookup(d, sample) + Contribution(fs, line, sample)
    ensures sample in Step(fs, d, line).value <==> sample in d || Contribution(fs, line, sample) != []
  {
    var report := SampleReport(fs, line).value;
    if report.0 != sample {
      assert Contribution(fs, line, sample) == [];
    }
  }

  lemma {:induction false} PredictionsForAppend(fs: FileSystem, a: Lines, b: Lines, sample: string)
    ensures PredictionsFor(fs, a + b, sample) == PredictionsFor(fs, a, sample) + PredictionsFor(fs, b, sample)
    decreases |a|
  {
    if a == [] {
      assert a + b == b;
    } else {
      assert (a + b)[1..] == a[1..] + b;
      assert (a + b)[0] == a[0];
      PredictionsForAppend(fs, a[1..], b, sample);
    }
  }
}
