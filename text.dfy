/** The Python string operations the result aggregation is built from:
    `s.split(sep)` with an explicit one-character separator, `sep.join(parts)`,
    `s.strip(c)` for one character, and the slice `s[:n]`. */
module Text {

  /** Python `s.split(sep)` with an explicit separator: every occurrence of `sep`
      ends a field, empty fields are kept, and there is always at least one field. */
  function Split(s: string, sep: char): (r: seq<string>)
    ensures |r| >= 1
    decreases |s|
  {
    if |s| == 0 then [""]
    else
      var rest := Split(s[1..], sep);
      if s[0] == sep then [""] + rest
      else [[s[0]] + rest[0]] + rest[1..]
  }

  /** No field of a split contains the separator. */
  lemma {:induction false} SplitFieldsFree(s: string, sep: char)
    ensures forall i :: 0 <= i < |Split(s, sep)| ==> sep !in Split(s, sep)[i]
    decreases |s|
  {
    if |s| > 0 {
      SplitFieldsFree(s[1..], sep);
    }
  }

  /** Python `sep.join(parts)` for a one-character separator. */
  function Join(parts: seq<string>, sep: char): string
  {
    if |parts| == 0 then ""
    else if |parts| == 1 then parts[0]
    else parts[0] + [sep] + Join(parts[1..], sep)
  }

  /** Every part preceded by `sep`, concatenated: what `sep.join([x] + parts)` adds after `x`. */
  function Prefixed(parts: seq<string>, sep: char): string
  {
    if parts == [] then "" else [sep] + parts[0] + Prefixed(parts[1..], sep)
  }

  /** Python `s.lstrip(c)`: the longest suffix of `s` that does not start with `c`. */
  function TrimStart(s: string, c: char): string
    decreases |s|
  {
    if |s| > 0 && s[0] == c then TrimStart(s[1..], c) else s
  }

  /** Python `s.rstrip(c)`: the longest prefix of `s` that does not end with `c`. */
  function TrimEnd(s: string, c: char): string
    decreases |s|
  {
    if |s| > 0 && s[|s| - 1] == c then TrimEnd(s[..|s| - 1], c) else s
  }

  /** Python `s.strip(c)`: `c` removed from both ends. */
  function Strip(s: string, c: char): string
  {
    TrimEnd(TrimStart(s, c), c)
  }

  /** Python slice `s[:n]`, which never fails on a short string. */
  function Take(s: string, n: nat): (r: string)
    ensures |r| == if |s| < n then |s| else n
    ensures r <= s
  {
    if |s| <= n then s else s[..n]
  }

  /** `s[:|p|] == p` holds exactly when `p` is a prefix of `s`. */
  lemma TakeIsPrefix(s: string, p: string)
    ensures Take(s, |p|) == p <==> p <= s
  {
  }

  /** A line carrying its terminator loses exactly the terminator under `strip`. */
  lemma StripTerminator(s: string, c: char)
    requires c !in s
    ensures Strip(s + [c], c) == s
  {
    var t := s + [c];
    if s == [] {
      assert TrimStart(t, c) == TrimStart(t[1..], c);
    } else {
      assert TrimStart(t, c) == t;
      assert t[..|t| - 1] == s;
      assert TrimEnd(t, c) == TrimEnd(s, c);
    }
  }

  /** A field free of the separator, followed by nothing or by the separator,
      is the first field of the split. */
  lemma {:induction false} SplitHead(a: string, b: string, sep: char)
    requires sep !in a
    requires b == [] || b[0] == sep
    ensures Split(a + b, sep)[0] == a
    decreases |a|
  {
    if a == [] {
      assert a + b == b;
    } else {
      SplitHead(a[1..], b, sep);
      assert (a + b)[1..] == a[1..] + b;
    }
  }

  /** Splitting text that starts with a separator-free field and a separator:
      that field, then the fields of the rest. */
  lemma {:induction false} SplitCons(a: string, sep: char, b: string)
    requires sep !in a
    ensures Split(a + [sep] + b, sep) == [a] + Split(b, sep)
    decreases |a|
  {
    var t := a + [sep] + b;
    if a == [] {
      assert t[1..] == b;
    } else {
      SplitCons(a[1..], sep, b);
      assert t[1..] == a[1..] + [sep] + b;
      var rest := Split(t[1..], sep);
      assert t[0] == a[0] && a[0] != sep;
      assert rest[0] == a[1..] && rest[1..] == Split(b, sep);
      assert [a[0]] + a[1..] == a;
    }
  }

  /** Text free of the separator splits into one field. */
  lemma {:induction false} SplitSingle(a: string, sep: char)
    requires sep !in a
    ensures Split(a, sep) == [a]
    decreases |a|
  {
    if a != [] {
      SplitSingle(a[1..], sep);
      assert [a[0]] + a[1..] == a;
    }
  }

  /** Joining the fields of a split gives back the text. */
  lemma {:induction false} JoinSplit(s: string, sep: char)
    ensures Join(Split(s, sep), sep) == s
    decreases |s|
  {
    if |s| > 0 {
      var rest := Split(s[1..], sep);
      JoinSplit(s[1..], sep);
      if s[0] == sep {
        assert ([""] + rest)[1..] == rest;
        assert s == [sep] + s[1..];
      } else {
        var parts := [[s[0]] + rest[0]] + rest[1..];
        assert parts[1..] == rest[1..];
        if |rest| == 1 {
          assert s == [s[0]] + s[1..];
        } else {
          assert Join(rest, sep) == rest[0] + [sep] + Join(rest[1..], sep);
          assert s == [s[0]] + s[1..];
        }
      }
    }
  }

  /** Splitting the join of separator-free fields gives back the fields. */
  lemma {:induction false} SplitJoin(parts: seq<string>, sep: char)
    requires |parts| >= 1
    requires forall i :: 0 <= i < |parts| ==> sep !in parts[i]
    ensures Split(Join(parts, sep), sep) == parts
    decreases |parts|
  {
    if |parts| == 1 {
      SplitSingle(parts[0], sep);
    } else {
      SplitJoin(parts[1..], sep);
      SplitCons(parts[0], sep, Join(parts[1..], sep));
      assert [parts[0]] + parts[1..] == parts;
    }
  }

  /** `sep.join([x] + parts)` is `x` followed by every part with a separator in front. */
  lemma {:induction false} JoinCons(x: string, parts: seq<string>, sep: char)
    ensures Join([x] + parts, sep) == x + Prefixed(parts, sep)
    decreases |parts|
  {
    if parts == [] {
    } else {
      JoinCons(parts[0], parts[1..], sep);
      assert ([x] + parts)[1..] == [parts[0]] + parts[1..];
      assert [parts[0]] + parts[1..] == parts;
    }
  }
}
