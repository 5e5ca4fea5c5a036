/** Splitting and joining strings on a single separator character, as Python's
    `str.split(sep)` / `sep.join(...)` and the class-list tokenising of the browser do. */
module Strings {
  import opened Wrappers

  /** Number of occurrences of `c` in `s`. */
  function Count(s: string, c: char): nat
  {
    if |s| == 0 then 0 else (if s[0] == c then 1 else 0) + Count(s[1..], c)
  }

  /** The pieces of `s` between occurrences of `sep` (Python's `s.split(sep)`). */
  function Split(s: string, sep: char): (parts: seq<string>)
    ensures |parts| >= 1
  {
    if |s| == 0 then [""]
    else
      var rest := Split(s[1..], sep);
      if s[0] == sep then [""] + rest
      else [[s[0]] + rest[0]] + rest[1..]
  }

  /** Index of the first `c` in `s`, or `|s|` when there is none. */
  function Find(s: string, c: char): (i: nat)
    ensures i <= |s|
  {
    if |s| == 0 || s[0] == c then 0 else 1 + Find(s[1..], c)
  }

  /** `Find` stops at the first `c`, and runs off the end only when there is none. */
  lemma {:induction false} FindSpec(s: string, c: char)
    ensures var i := Find(s, c);
      && c !in s[..i] && (i < |s| <==> c in s) && (i < |s| ==> s[i] == c)
  {
    if |s| > 0 && s[0] != c {
      FindSpec(s[1..], c);
      var i := Find(s, c);
      assert s[..i] == [s[0]] + s[1..][..i - 1];
    }
  }

  /** `a, b = s.split(sep)`: the two pieces when `s` holds exactly one `sep`,
      and `None` for the `ValueError` the unpacking raises otherwise. */
  function Unpack2(s: string, sep: char): Option<(string, string)>
  {
    var i := Find(s, sep);
    if Count(s, sep) != 1 || i == |s| then None else Some((s[..i], s[i + 1..]))
  }

  /** Python's `sep.join([a, b])`. */
  function Join2(a: string, sep: char, b: string): string
  {
    a + [sep] + b
  }

  lemma {:induction false} SplitLength(s: string, sep: char)
    ensures |Split(s, sep)| == Count(s, sep) + 1
  {
    if |s| > 0 {
      SplitLength(s[1..], sep);
    }
  }

  lemma {:induction false} SplitFree(s: string, sep: char)
    requires sep !in s
    ensures Split(s, sep) == [s]
  {
    if |s| > 0 {
      SplitFree(s[1..], sep);
      assert s == [s[0]] + s[1..];
    }
  }

  /** Splitting distributes over a separator: the pieces of `a + sep + b` are
      the pieces of `a` followed by the pieces of `b`. */
  lemma {:induction false} SplitAppend(a: string, sep: char, b: string)
    ensures Split(a + [sep] + b, sep) == Split(a, sep) + Split(b, sep)
  {
    if |a| == 0 {
      assert a + [sep] + b == [sep] + b;
      SplitCons(sep, b, sep);
    } else {
      var c, tail := a[0], a[1..] + [sep] + b;
      assert a + [sep] + b == [c] + tail;
      assert a == [c] + a[1..];
      SplitCons(c, tail, sep);
      SplitCons(c, a[1..], sep);
      SplitAppend(a[1..], sep, b);
      PiecesAppend(c, sep, Split(a[1..], sep), Split(b, sep));
    }
  }

  /** The list step of `SplitAppend`: prefixing `c` to the pieces of `a + sep + b`
      commutes with appending the pieces of `b`. */
  lemma PiecesAppend(c: char, sep: char, ra: seq<string>, rb: seq<string>)
    requires |ra| >= 1
    ensures var r := ra + rb;
      (if c == sep then [""] + r else [[c] + r[0]] + r[1..])
      == (if c == sep then [""] + ra else [[c] + ra[0]] + ra[1..]) + rb
  {
    var r := ra + rb;
    if c != sep {
      assert r[0] == ra[0];
      assert r[1..] == ra[1..] + rb;
    }
  }

  /** One step of `Split`: the pieces of `c` followed by `s`. */
  lemma SplitCons(c: char, s: string, sep: char)
    ensures var rest := Split(s, sep);
      Split([c] + s, sep) == if c == sep then [""] + rest else [[c] + rest[0]] + rest[1..]
  {
    assert ([c] + s)[1..] == s;
  }

  /** Round trip of a two-part join: `split` recovers exactly the two parts
      when neither contains the separator. */
  lemma JoinSplit(a: string, sep: char, b: string)
    requires sep !in a && sep !in b
    ensures Split(Join2(a, sep, b), sep) == [a, b]
  {
    SplitAppend(a, sep, b);
    SplitFree(a, sep);
    SplitFree(b, sep);
  }

  /** If either part contains the separator, the join does not split into two parts. */
  lemma JoinSplitAmbiguous(a: string, sep: char, b: string)
    requires sep in a || sep in b
    ensures |Split(Join2(a, sep, b), sep)| > 2
  {
    SplitAppend(a, sep, b);
    SplitLength(a, sep);
    SplitLength(b, sep);
    CountPositive(a, sep);
    CountPositive(b, sep);
  }

  lemma {:induction false} CountPositive(s: string, c: char)
    ensures c in s <==> Count(s, c) > 0
  {
    if |s| > 0 {
      CountPositive(s[1..], c);
      assert c in s <==> s[0] == c || c in s[1..];
    }
  }

  /** The only two-piece splits are of strings with exactly one separator,
      and joining the pieces gives the string back. */
  lemma {:induction false} SplitTwo(s: string, sep: char)
    requires |Split(s, sep)| == 2
    ensures var p := Split(s, sep); sep !in p[0] && sep !in p[1] && Join2(p[0], sep, p[1]) == s
  {
    var p := Split(s, sep);
    var rest := Split(s[1..], sep);
    if s[0] == sep {
      assert |rest| == 1;
      SplitOne(s[1..], sep);
      assert s == [sep] + s[1..];
    } else {
      assert |rest| == 2;
      SplitTwo(s[1..], sep);
      assert s == [s[0]] + s[1..];
    }
  }

  lemma {:induction false} SplitOne(s: string, sep: char)
    requires |Split(s, sep)| == 1
    ensures sep !in s && Split(s, sep) == [s]
  {
    if |s| > 0 {
      var rest := Split(s[1..], sep);
      assert s[0] != sep;
      SplitOne(s[1..], sep);
      assert s == [s[0]] + s[1..];
    }
  }

  /** The first separator of `a + sep + b` is the one joined in when `a` holds none. */
  lemma FindJoin(a: string, sep: char, b: string)
    requires sep !in a
    ensures Find(Join2(a, sep, b), sep) == |a|
  {
    var x := Join2(a, sep, b);
    FindSpec(x, sep);
    assert x[|a|] == sep && x[..|a|] == a;
  }

  /** `Unpack2` is the unpacking of `split` into two names: it succeeds exactly
      when the split has two pieces, and gives those pieces. */
  lemma Unpack2Split(s: string, sep: char)
    ensures Unpack2(s, sep) == if |Split(s, sep)| == 2 then Some((Split(s, sep)[0], Split(s, sep)[1])) else None
  {
    SplitLength(s, sep);
    if |Split(s, sep)| == 2 {
      SplitTwo(s, sep);
      var p := Split(s, sep);
      FindJoin(p[0], sep, p[1]);
      assert s[..|p[0]|] == p[0];
      assert s[|p[0]| + 1..] == p[1];
    }
  }

  /** Round trip of a two-part join through the two-name unpacking. */
  lemma JoinUnpack(a: string, sep: char, b: string)
    requires sep !in a && sep !in b
    ensures Unpack2(Join2(a, sep, b), sep) == Some((a, b))
  {
    JoinSplit(a, sep, b);
    Unpack2Split(Join2(a, sep, b), sep);
  }

  /** Joining on a separator the first part lacks loses nothing: the joined
      string determines both parts. */
  lemma JoinInjective(a: string, sep: char, b: string, c: string, d: string)
    requires sep !in a && sep !in c && Join2(a, sep, b) == Join2(c, sep, d)
    ensures a == c && b == d
  {
    FindJoin(a, sep, b);
    FindJoin(c, sep, d);
    var x := Join2(a, sep, b);
    assert x[..|a|] == a && x[|a| + 1..] == b;
    assert x[..|c|] == c && x[|c| + 1..] == d;
  }
}
