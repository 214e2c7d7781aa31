/** `make_isPCR_list`: every amplicon the in-silico PCR reports of the registry
    samples, read from each sample's `<sample>_is.out` file. */
module IsPcr {
  import opened Text
  import opened Files

  /** A predicted product: the primer pair and its length, both as the raw text
      fields of the report header line (`[primer_pair, product_length]`). */
  datatype Amplicon = Amplicon(primer: string, length: string)

  /** One entry of the flat hit list: `[sample, [primer_pair, product_length]]`. */
  datatype Hit = Hit(sample: string, amplicon: Amplicon)

  /** The in-silico PCR report of `sample`, relative to the working directory. */
  function IsPcrPath(sample: string): string
  {
    sample + "_is.out"
  }

  /** A report line that starts a product record. Report lines are not
      stripped, so the terminator stays on the last field. */
  predicate IsHeaderLine(line: string)
  {
    |line| > 0 && line[0] == '>'
  }

  /** What one report line contributes for `sample`: nothing unless it starts
      with `'>'`, then one hit from its second and third space-separated fields.
      Reading `line[0]` of an empty line and a header with fewer than three
      fields both fail. */
  function LineHits(sample: string, line: string): Result<seq<Hit>>
  {
    if |line| == 0 then Err(IndexOutOfRange)
    else if line[0] != '>' then Ok([])
    else
      var fields := Split(line, ' ');
      if |fields| < 3 then Err(IndexOutOfRange)
      else Ok([Hit(sample, Amplicon(fields[1], fields[2]))])
  }

  /** The hits of one report, in file order. */
  function FileHits(sample: string, lines: Lines): Result<seq<Hit>>
  {
    if lines == [] then Ok([]) else Chain(LineHits(sample, lines[0]), FileHits(sample, lines[1..]))
  }

  /** The hits of the sample a registry line names; its report must exist. */
  function SampleHits(fs: FileSystem, line: string): Result<seq<Hit>>
  {
    match SampleOf(line)
    case Err(e) => Err(e)
    case Ok(sample) =>
      if IsPcrPath(sample) !in fs then Err(FileNotFound(IsPcrPath(sample)))
      else FileHits(sample, fs[IsPcrPath(sample)])
  }

  /** The hits of all registry lines, in registry order. */
  function RegistryHits(fs: FileSystem, reg: Lines): Result<seq<Hit>>
  {
    if reg == [] then Ok([]) else Chain(SampleHits(fs, reg[0]), RegistryHits(fs, reg[1..]))
  }

  /** `make_isPCR_list(infile)`. */
  function IsPcrList(fs: FileSystem, infile: string): Result<seq<Hit>>
  {
    if infile !in fs then Err(FileNotFound(infile)) else RegistryHits(fs, fs[infile])
  }

  /** The number of product records in a report. */
  function HeaderCount(lines: Lines): nat
  {
    if lines == [] then 0 else (if IsHeaderLine(lines[0]) then 1 else 0) + HeaderCount(lines[1..])
  }

  /** The outer loop of `make_isPCR_list`: every registry line in order. */
  method MakeIsPcrList(fs: FileSystem, infile: string) returns (r: Result<seq<Hit>>)
    ensures r == IsPcrList(fs, infile)
  {
    if infile !in fs {
      return Err(FileNotFound(infile));
    }
    var registry := fs[infile];
    var results: seq<Hit> := [];
    var i := 0;
    while i < |registry|
      invariant 0 <= i <= |registry|
      invariant RegistryHits(fs, registry[..i]) == Ok(results)
    {
      assert registry[..i + 1] == registry[..i] + [registry[i]];
      RegistryHitsAppend(fs, registry[..i], [registry[i]]);
      RegistryHitsSingle(fs, registry[i]);
      var next := AddHits(fs, results, registry[i]);
      if next.Err? {
        RegistryHitsAppend(fs, registry[..i + 1], registry[i + 1..]);
        assert registry[..i + 1] + registry[i + 1..] == registry;
        return next;
      }
      results := next.value;
      i := i + 1;
    }
    assert registry[..i] == registry;
    return Ok(results);
  }

  /** The inner loop of `make_isPCR_list`: open the report of the sample a
      registry line names and append one hit per product record. */
  method AddHits(fs: FileSystem, hits: seq<Hit>, line: string) returns (r: Result<seq<Hit>>)
    ensures r == Chain(Ok(hits), SampleHits(fs, line))
  {
    var sample := SampleOf(line);
    if sample.Err? {
      return Err(sample.error);
    }
    var s := sample.value;
    var path := IsPcrPath(s);
    if path !in fs {
      return Err(FileNotFound(path));
    }
    var report := fs[path];
    var results := hits;
    var j := 0;
    while j < |report|
      invariant 0 <= j <= |report|
      invariant FileHits(s, report[..j]).Ok?
      invariant results == hits + FileHits(s, report[..j]).value
    {
      assert report[..j + 1] == report[..j] + [report[j]];
      FileHitsAppend(s, report[..j], [report[j]]);
      FileHitsSingle(s, report[j]);
      var text := report[j];
      if |text| == 0 || (text[0] == '>' && |Split(text, ' ')| < 3) {
        FileHitsAppend(s, report[..j + 1], report[j + 1..]);
        assert report[..j + 1] + report[j + 1..] == report;
        return Err(IndexOutOfRange);
      }
      if text[0] == '>' {
        var fields := Split(text, ' ');
        var primerPair := fields[1];
        var productLength := fields[2];
        results := results + [Hit(s, Amplicon(primerPair, productLength))];
      } else {
        assert FileHits(s, report[..j]).value + [] == FileHits(s, report[..j]).value;
      }
      j := j + 1;
    }
    assert report[..j] == report;
    return Ok(results);
  }

  lemma FileHitsSingle(sample: string, line: string)
    ensures FileHits(sample, [line]) == LineHits(sample, line)
  {
    assert [line][1..] == [];
    ChainUnit(LineHits(sample, line));
  }

  lemma RegistryHitsSingle(fs: FileSystem, line: string)
    ensures RegistryHits(fs, [line]) == SampleHits(fs, line)
  {
    assert [line][1..] == [];
    ChainUnit(SampleHits(fs, line));
  }

  /** File order: the hits of two consecutive parts of a report are those of
      the first part followed by those of the second. */
  lemma {:induction false} FileHitsAppend(sample: string, a: Lines, b: Lines)
    ensures FileHits(sample, a + b) == Chain(FileHits(sample, a), FileHits(sample, b))
    decreases |a|
  {
    if a == [] {
      assert a + b == b;
      ChainUnit(FileHits(sample, b));
    } else {
      assert (a + b)[1..] == a[1..] + b;
      FileHitsAppend(sample, a[1..], b);
      ChainAssociative(LineHits(sample, a[0]), FileHits(sample, a[1..]), FileHits(sample, b));
    }
  }

  /** Registry order: the hits of two consecutive parts of the registry are
      those of the first part followed by those of the second. */
  lemma {:induction false} RegistryHitsAppend(fs: FileSystem, a: Lines, b: Lines)
    ensures RegistryHits(fs, a + b) == Chain(RegistryHits(fs, a), RegistryHits(fs, b))
    decreases |a|
  {
    if a == [] {
      assert a + b == b;
      ChainUnit(RegistryHits(fs, b));
    } else {
      assert (a + b)[1..] == a[1..] + b;
      RegistryHitsAppend(fs, a[1..], b);
      ChainAssociative(SampleHits(fs, a[0]), RegistryHits(fs, a[1..]), RegistryHits(fs, b));
    }
  }

  /** A non-empty line that does not start with `'>'` contributes nothing. */
  lemma OtherLineIgnored(sample: string, a: Lines, line: string, b: Lines)
    requires |line| > 0 && !IsHeaderLine(line)
    ensures FileHits(sample, a + [line] + b) == FileHits(sample, a + b)
  {
    FileHitsAppend(sample, a + [line], b);
    FileHitsAppend(sample, a, [line]);
    FileHitsAppend(sample, a, b);
    FileHitsSingle(sample, line);
    ChainUnit(FileHits(sample, a));
  }

  /** A report that can be read yields exactly one hit per product record, each
      carrying the registry's sample name. */
  lemma {:induction false} FileHitsCount(sample: string, lines: Lines)
    requires FileHits(sample, lines).Ok?
    ensures |FileHits(sample, lines).value| == HeaderCount(lines)
    ensures forall h :: h in FileHits(sample, lines).value ==> h.sample == sample
    decreases |lines|
  {
    if lines != [] {
      FileHitsCount(sample, lines[1..]);
    }
  }

  /** A report line that cannot be read: an empty line, or a product record
      with fewer than three space-separated fields. */
  predicate FailingLine(line: string)
  {
    |line| == 0 || (IsHeaderLine(line) && |Split(line, ' ')| < 3)
  }

  /** One report line fails exactly when it is a `FailingLine`, and then with
      an index error. */
  lemma LineHitsFailure(sample: string, line: string)
    ensures LineHits(sample, line).Err? <==> FailingLine(line)
    ensures LineHits(sample, line).Err? ==> LineHits(sample, line).error == IndexOutOfRange
  {
  }

  /** A report fails exactly when it has an empty line or a product record with
      fewer than three fields. */
  lemma {:induction false} FileHitsFailure(sample: string, lines: Lines)
    ensures FileHits(sample, lines).Err? <==>
            exists i :: 0 <= i < |lines| && FailingLine(lines[i])
    ensures FileHits(sample, lines).Err? ==> FileHits(sample, lines).error == IndexOutOfRange
    decreases |lines|
  {
    if lines != [] {
      FileHitsFailure(sample, lines[1..]);
      if FileHits(sample, lines[1..]).Err? {
        var i :| 0 <= i < |lines| - 1 && FailingLine(lines[1..][i]);
        assert lines[1..][i] == lines[i + 1];
      }
      forall i | 0 < i < |lines|
        ensures lines[i] == lines[1..][i - 1]
      {
      }
    }
  }

  /** A product record `>contig primer length[ more...]` yields the raw primer
      and length fields. The line is not stripped, so when `length` ends the
      line it keeps the line terminator. */
  lemma HeaderLineHit(sample: string, contig: string, primer: string, length: string, tail: string)
    requires ' ' !in contig && ' ' !in primer && ' ' !in length
    requires tail == [] || tail[0] == ' '
    ensures LineHits(sample, ">" + contig + " " + primer + " " + length + tail) ==
            Ok([Hit(sample, Amplicon(primer, length))])
  {
    var line := ">" + contig + " " + primer + " " + length + tail;
    assert line == (">" + contig) + [' '] + (primer + [' '] + (length + tail));
    assert ' ' !in ">" + contig;
    SplitCons(">" + contig, ' ', primer + [' '] + (length + tail));
    SplitCons(primer, ' ', length + tail);
    SplitHead(length, tail, ' ');
  }

  /** The newline stays on the length when the record has only three fields. */
  lemma LengthKeepsTerminator()
    ensures LineHits("s1", ">ctg1 p1 412\n") == Ok([Hit("s1", Amplicon("p1", "412\n"))])
  {
    HeaderLineHit("s1", "ctg1", "p1", "412\n", "");
    assert ">" + "ctg1" + " " + "p1" + " " + "412\n" + "" == ">ctg1 p1 412\n";
  }

  /** An unterminated last record keeps no newline on its length. */
  lemma LengthWithoutTerminator()
    ensures LineHits("s1", ">ctg1 p1 412") == Ok([Hit("s1", Amplicon("p1", "412"))])
  {
    HeaderLineHit("s1", "ctg1", "p1", "412", "");
    assert ">" + "ctg1" + " " + "p1" + " " + "412" + "" == ">ctg1 p1 412";
  }

  /** The run succeeds exactly when every registry line names a sample whose
      report exists and can be read; otherwise it stops with the error of the
      first registry line that does not. */
  lemma {:induction false} RegistryHitsOutcome(fs: FileSystem, reg: Lines)
    ensures RegistryHits(fs, reg).Ok? <==> forall i :: 0 <= i < |reg| ==> SampleHits(fs, reg[i]).Ok?
    ensures RegistryHits(fs, reg).Err? ==>
              exists i :: 0 <= i < |reg| && SampleHits(fs, reg[i]) == Err(RegistryHits(fs, reg).error) &&
                          forall j :: 0 <= j < i ==> SampleHits(fs, reg[j]).Ok?
    decreases |reg|
  {
    if reg != [] {
      RegistryHitsOutcome(fs, reg[1..]);
      forall i | 0 < i < |reg|
        ensures reg[i] == reg[1..][i - 1]
      {
      }
      if SampleHits(fs, reg[0]).Ok? && RegistryHits(fs, reg[1..]).Err? {
        var i :| 0 <= i < |reg| - 1 && SampleHits(fs, reg[1..][i]) == Err(RegistryHits(fs, reg[1..]).error) &&
                 forall j :: 0 <= j < i ==> SampleHits(fs, reg[1..][j]).Ok?;
        assert SampleHits(fs, reg[i + 1]) == Err(RegistryHits(fs, reg).error);
      }
    }
  }
}
