/** What the three aggregation steps share: the files they read, the way they
    fail, and the splitting of registry lines and primer lines. */
module Files {
  import opened Text

  /** A text file as Python's line iteration yields it: every line keeps its
      `'\n'` terminator (the last line may have none). */
  type Lines = seq<string>

  /** The files visible from the working directory, by path. */
  type FileSystem = map<string, Lines>

  /** Why a step stops: `open` of a path that does not exist, or an index past
      the end of a list or string (Python's `IndexError`). */
  datatype Error = FileNotFound(path: string) | IndexOutOfRange

  datatype Result<T> = Ok(value: T) | Err(error: Error)

  /** `a` and then `b`: the first error stops everything, otherwise the two
      results are concatenated. */
  function Chain<T>(a: Result<seq<T>>, b: Result<seq<T>>): (r: Result<seq<T>>)
    ensures r.Ok? <==> a.Ok? && b.Ok?
    ensures a.Err? ==> r == a
    ensures a.Ok? && b.Err? ==> r == b
    ensures a.Ok? && b.Ok? ==> r.value == a.value + b.value
  {
    match a
    case Err(_) => a
    case Ok(x) =>
      match b
      case Err(_) => b
      case Ok(y) => Ok(x + y)
  }

  lemma ChainAssociative<T>(a: Result<seq<T>>, b: Result<seq<T>>, c: Result<seq<T>>)
    ensures Chain(Chain(a, b), c) == Chain(a, Chain(b, c))
  {
    if a.Ok? && b.Ok? && c.Ok? {
      assert (a.value + b.value) + c.value == a.value + (b.value + c.value);
    }
  }

  lemma ChainUnit<T>(a: Result<seq<T>>)
    ensures Chain(Ok([]), a) == a && Chain(a, Ok([])) == a
  {
    if a.Ok? {
      assert [] + a.value == a.value && a.value + [] == a.value;
    }
  }

  /** A non-empty sequence is its front followed by its last element. */
  lemma InitLast<T>(s: seq<T>)
    requires |s| > 0
    ensures s[..|s| - 1] + [s[|s| - 1]] == s
  {
  }

  /** A sequence is its part before `i` followed by its part from `i`. */
  lemma SplitAt<T>(s: seq<T>, i: nat)
    requires i <= |s|
    ensures s[..i] + s[i..] == s
  {
  }

  /** A sequence is its part before `i`, its element at `i`, and its part after `i`. */
  lemma SplitAround<T>(s: seq<T>, i: nat)
    requires i < |s|
    ensures s == (s[..i] + [s[i]]) + s[i + 1..]
  {
  }

  /** A split has a second field exactly when the separator occurs. */
  lemma {:induction false} SplitHasSecondField(s: string, sep: char)
    ensures |Split(s, sep)| >= 2 <==> sep in s
    decreases |s|
  {
    if |s| > 0 {
      SplitHasSecondField(s[1..], sep);
      assert s == [s[0]] + s[1..];
    }
  }

  /** The sample name of a registry line: the second tab-separated field once
      the terminator is stripped (Python `line.strip('\n').split('\t')[1]`). */
  function SampleOf(line: string): (r: Result<string>)
    ensures r.Ok? <==> '\t' in Strip(line, '\n')
    ensures r.Err? ==> r.error == IndexOutOfRange
    ensures r.Ok? ==> '\t' !in r.value
  {
    var fields := Split(Strip(line, '\n'), '\t');
    SplitHasSecondField(Strip(line, '\n'), '\t');
    SplitFieldsFree(Strip(line, '\n'), '\t');
    if |fields| < 2 then Err(IndexOutOfRange) else Ok(fields[1])
  }

  /** The name of a primer pair: the first space-separated field of its line
      once the terminator is stripped (Python `line.strip('\n').split(' ')[0]`). */
  function PrimerName(line: string): (r: string)
    ensures ' ' !in r
  {
    SplitFieldsFree(Strip(line, '\n'), ' ');
    Split(Strip(line, '\n'), ' ')[0]
  }

  /** A registry line `accession<TAB>name[<TAB>...]\n` names the sample `name`. */
  lemma RegistryLineSample(accession: string, name: string, tail: string)
    requires '\t' !in accession && '\t' !in name
    requires '\n' !in accession + name + tail
    requires tail == [] || tail[0] == '\t'
    ensures SampleOf(accession + "\t" + name + tail + "\n") == Ok(name)
  {
    var body := accession + "\t" + name + tail;
    assert '\n' !in body by {
      assert body == (accession + name + tail)[..|accession|] + "\t" + (accession + name + tail)[|accession|..];
    }
    assert body + "\n" == accession + "\t" + name + tail + "\n";
    StripTerminator(body, '\n');
    assert body == accession + ['\t'] + (name + tail);
    SplitCons(accession, '\t', name + tail);
    SplitHead(name, tail, '\t');
  }

  /** A primer line `name<SPACE>forward<SPACE>reverse\n` names the primer pair `name`. */
  lemma PrimerLineName(name: string, tail: string)
    requires ' ' !in name
    requires '\n' !in name + tail
    requires tail == [] || tail[0] == ' '
    ensures PrimerName(name + tail + "\n") == name
  {
    StripTerminator(name + tail, '\n');
    SplitHead(name, tail, ' ');
  }
}
