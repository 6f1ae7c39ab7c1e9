/** Columns of a text: the splitting helper every parser of the library is built on. */
module Text {
  import Common

  /** One `char` of the C++ program: eight bits. */
  type byte = c: char | c as int < 256
  type bytes = seq<byte>

  /** The value of `str.find(sep, from)`, with the end of the text standing for "not found". */
  function Find(s: string, sep: char, from: nat): (i: nat)
    requires from <= |s|
    ensures from <= i <= |s|
    ensures forall j :: from <= j < i ==> s[j] != sep
    ensures i < |s| ==> s[i] == sep
    decreases |s| - from
  {
    if from == |s| || s[from] == sep then from else Find(s, sep, from + 1)
  }

  /** The columns of `s`: one more than it has separators. */
  function Split(s: string, sep: char): (columns: seq<string>)
    ensures |columns| >= 1
    decreases |s|
  {
    var i := Find(s, sep, 0);
    if i == |s| then [s] else [s[..i]] + Split(s[i + 1..], sep)
  }

  function Join(columns: seq<string>, sep: char): string
    requires columns != []
  {
    if |columns| == 1 then columns[0] else columns[0] + [sep] + Join(columns[1..], sep)
  }

  ghost predicate AllFree(columns: seq<string>, sep: char) {
    forall c :: c in columns ==> sep !in c
  }

  lemma FindIsFirst(s: string, sep: char, from: nat, i: nat)
    requires from <= i <= |s|
    requires forall j :: from <= j < i ==> s[j] != sep
    requires i < |s| ==> s[i] == sep
    ensures Find(s, sep, from) == i
  {
  }

  /** Unfolds `Split` once, at the first separator. */
  lemma SplitHere(s: string, sep: char, i: nat)
    requires i <= |s|
    requires forall j :: 0 <= j < i ==> s[j] != sep
    requires i < |s| ==> s[i] == sep
    ensures i == |s| ==> Split(s, sep) == [s]
    ensures i < |s| ==> Split(s, sep) == [s[..i]] + Split(s[i + 1..], sep)
  {
    FindIsFirst(s, sep, 0, i);
  }

  /** The splitting law: a separator in the text is a boundary between two lists of columns. */
  lemma {:induction false} SplitConcat(a: string, sep: char, b: string)
    ensures Split(a + [sep] + b, sep) == Split(a, sep) + Split(b, sep)
    decreases |a|
  {
    hide Split;
    var s := a + [sep] + b;
    var i := Find(a, sep, 0);
    SplitHere(a, sep, i);
    SplitHere(s, sep, i);
    if i == |a| {
      assert s[..i] == a && s[i + 1..] == b;
    } else {
      assert s[..i] == a[..i] && s[i + 1..] == a[i + 1..] + [sep] + b;
      SplitConcat(a[i + 1..], sep, b);
    }
  }

  lemma SplitWhole(s: string, sep: char)
    requires sep !in s
    ensures Split(s, sep) == [s]
  {
    SplitHere(s, sep, |s|);
  }

  lemma {:induction false} SplitColumnsAreFree(s: string, sep: char)
    ensures AllFree(Split(s, sep), sep)
    decreases |s|
  {
    hide Split;
    var i := Find(s, sep, 0);
    SplitHere(s, sep, i);
    if i < |s| {
      SplitColumnsAreFree(s[i + 1..], sep);
    }
  }

  lemma {:induction false} JoinSplit(s: string, sep: char)
    ensures Join(Split(s, sep), sep) == s
    decreases |s|
  {
    hide Split;
    var i := Find(s, sep, 0);
    SplitHere(s, sep, i);
    if i < |s| {
      var rest := Split(s[i + 1..], sep);
      JoinSplit(s[i + 1..], sep);
      assert Split(s, sep)[1..] == rest;
      assert s == s[..i] + [sep] + s[i + 1..];
    }
  }

  lemma {:induction false} SplitJoin(columns: seq<string>, sep: char)
    requires columns != []
    requires AllFree(columns, sep)
    ensures Split(Join(columns, sep), sep) == columns
    decreases |columns|
  {
    hide Split;
    SplitWhole(columns[0], sep);
    if |columns| == 1 {
    } else {
      assert AllFree(columns[1..], sep);
      SplitJoin(columns[1..], sep);
      SplitConcat(columns[0], sep, Join(columns[1..], sep));
    }
  }

  /** What one pass of the loop finds: the column that starts at `begin`. */
  lemma SplitAt(s: string, sep: char, begin: nat, end: nat)
    requires begin < |s| && end == Find(s, sep, begin)
    ensures end == |s| ==> Split(s[begin..], sep) == [s[begin..end]]
    ensures end < |s| ==> Split(s[begin..], sep) == [s[begin..end]] + Split(s[end + 1..], sep)
  {
    hide Split;
    var rest, i := s[begin..], end - begin;
    SplitHere(rest, sep, i);
    assert rest[..i] == s[begin..end];
    if end < |s| {
      assert rest[i + 1..] == s[end + 1..];
    } else {
      assert rest == s[begin..end];
    }
  }

  /** The loop of the library, against `Split`. */
  method SplitColumns(s: string, sep: char) returns (columns: seq<string>)
    ensures columns == Split(s, sep)
  {
    hide Split, Find;
    columns := [];
    var begin := 0;
    ghost var rest := Split(s, sep);
    assert s[0..] == s && columns + rest == rest;
    while begin < |s|
      invariant 0 <= begin <= |s| + 1
      invariant Split(s, sep) == columns + rest
      invariant rest == if begin <= |s| then Split(s[begin..], sep) else []
      invariant begin == |s| + 1 ==> s != [] && s[|s| - 1] != sep
      invariant 0 < begin <= |s| ==> s[begin - 1] == sep
    {
      var end := Find(s, sep, begin);
      SplitAt(s, sep, begin, end);
      rest := if end < |s| then Split(s[end + 1..], sep) else [];
      assert [s[begin..end]] + [] == [s[begin..end]];
      Common.Associative(columns, [s[begin..end]], rest);
      columns := columns + [s[begin..end]];
      begin := end + 1;
    }
    SplitWhole("", sep);
    assert begin == |s| ==> s[begin..] == "";
    assert rest == [] ==> columns + rest == columns;
    if s == "" || s[|s| - 1] == sep {
      columns := columns + [""];
    }
  }
}
