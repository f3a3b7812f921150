/** The two Python sequence operations the history label is built from:
    slicing with possibly negative bounds (`s[a:b]`) and `str.split(sep)`. */
module PyText {

  function Max(a: int, b: int): int {
    if a < b then b else a
  }

  function Min(a: int, b: int): int {
    if a < b then a else b
  }

  /** How Python resolves one slice bound `i` against a sequence of length `n`:
      a negative bound counts from the end, and the result is clamped into [0, n]. */
  function Bound(i: int, n: nat): (k: nat)
    ensures k <= n
  {
    if i < 0 then Max(i + n, 0) else Min(i, n)
  }

  /** Python's `s[start:stop]` (step 1). It never raises: out-of-range bounds are
      clamped, and a slice whose resolved start is not before its resolved stop is empty. */
  function Slice<T>(s: seq<T>, start: int, stop: int): (r: seq<T>)
    ensures |r| == Max(Bound(stop, |s|) - Bound(start, |s|), 0)
    ensures forall k :: 0 <= k < |r| ==> r[k] == s[Bound(start, |s|) + k]
  {
    var lo, hi := Bound(start, |s|), Bound(stop, |s|);
    if lo < hi then s[lo..hi] else []
  }

  /** Python's `s.count(c)` for a single character: how many times `c` occurs in `s`. */
  function Count(s: string, c: char): (n: nat)
    ensures n > 0 <==> c in s
    ensures n <= |s|
  {
    if |s| == 0 then 0
    else
      assert s == [s[0]] + s[1..];
      (if s[0] == c then 1 else 0) + Count(s[1..], c)
  }

  /** Occurrences add up over a concatenation. */
  lemma {:induction false} CountConcat(s: string, t: string, c: char)
    ensures Count(s + t, c) == Count(s, c) + Count(t, c)
    decreases |s|
  {
    if |s| > 0 {
      assert (s + t)[0] == s[0];
      assert (s + t)[1..] == s[1..] + t;
      CountConcat(s[1..], t, c);
    } else {
      assert s + t == t;
    }
  }

  /** Cutting `s` at its first separator `i` removes exactly one separator. */
  lemma SplitCount(s: string, i: nat, sep: char)
    requires i < |s| && s[i] == sep && sep !in s[..i]
    ensures Count(s, sep) == 1 + Count(s[i + 1..], sep)
  {
    assert s == s[..i] + ([sep] + s[i + 1..]);
    CountConcat(s[..i], [sep] + s[i + 1..], sep);
    CountConcat([sep], s[i + 1..], sep);
    assert [sep][1..] == [];
  }

  /** Python's `s.index(c)`: the position of the first occurrence of `c`. */
  function IndexOf(s: string, c: char): (i: nat)
    requires c in s
    ensures i < |s| && s[i] == c && c !in s[..i]
  {
    if s[0] == c then 0
    else
      assert c in s[1..];
      var j := IndexOf(s[1..], c);
      assert s[..j + 1] == [s[0]] + s[1..][..j];
      j + 1
  }

  /** No field contains the separator. */
  predicate SeparatorFree(fields: seq<string>, sep: char) {
    forall i :: 0 <= i < |fields| ==> sep !in fields[i]
  }

  /** A separator-free field in front keeps the fields separator-free. */
  lemma SeparatorFreeCons(f: string, fields: seq<string>, sep: char)
    requires sep !in f && SeparatorFree(fields, sep)
    ensures SeparatorFree([f] + fields, sep)
  {
    assert forall k :: 1 <= k < 1 + |fields| ==> ([f] + fields)[k] == fields[k - 1];
  }

  /** Python's `sep.join(fields)`. */
  function Join(fields: seq<string>, sep: char): string {
    if |fields| == 0 then []
    else if |fields| == 1 then fields[0]
    else fields[0] + [sep] + Join(fields[1..], sep)
  }

  /** Python's `s.split(sep)` for a one-character separator: the maximal runs
      between separators, including empty ones, so there is always one more
      field than there are separators and no field holds a separator. */
  function Split(s: string, sep: char): (fields: seq<string>)
    ensures |fields| == 1 + Count(s, sep)
    ensures SeparatorFree(fields, sep)
    decreases |s|
  {
    if sep !in s then [s]
    else
      var i := IndexOf(s, sep);
      SplitCount(s, i, sep);
      var rest := Split(s[i + 1..], sep);
      SeparatorFreeCons(s[..i], rest, sep);
      [s[..i]] + rest
  }

  /** A separator-free text is a single field. */
  lemma SplitWhole(a: string, sep: char)
    requires sep !in a
    ensures Split(a, sep) == [a]
  {
  }

  /** A separator-free run followed by a separator is split off as the first field. */
  lemma SplitFirst(a: string, y: string, sep: char)
    requires sep !in a
    ensures Split(a + [sep] + y, sep) == [a] + Split(y, sep)
  {
    var s := a + [sep] + y;
    assert s[|a|] == sep;
    var i := IndexOf(s, sep);
    assert s[..i] == a;
    assert s[i + 1..] == y;
  }

  /** Joining the fields of a split with the separator gives the text back. */
  lemma {:induction false} JoinSplit(s: string, sep: char)
    ensures Join(Split(s, sep), sep) == s
    decreases |s|
  {
    if sep in s {
      var i := IndexOf(s, sep);
      var rest := s[i + 1..];
      JoinSplit(rest, sep);
      var fields := Split(s, sep);
      assert fields == [s[..i]] + Split(rest, sep);
      assert fields[1..] == Split(rest, sep);
      assert Join(fields, sep) == s[..i] + [sep] + rest;
      assert s == s[..i] + [sep] + rest;
    }
  }

  /** The inverse round trip: separator-free fields survive a join followed by a split. */
  lemma {:induction false} SplitJoin(fields: seq<string>, sep: char)
    requires |fields| >= 1
    requires SeparatorFree(fields, sep)
    ensures Split(Join(fields, sep), sep) == fields
    decreases |fields|
  {
    if |fields| == 1 {
      assert sep !in fields[0];
      SplitWhole(fields[0], sep);
    } else {
      var tail := fields[1..];
      assert forall i :: 0 <= i < |tail| ==> tail[i] == fields[i + 1];
      SplitJoin(tail, sep);
      assert sep !in fields[0];
      SplitFirst(fields[0], Join(tail, sep), sep);
      assert fields == [fields[0]] + tail;
    }
  }

  /** A separator-free run that ends the text or is followed by a separator is the first field. */
  lemma SplitHead(b: string, rest: string, sep: char)
    requires sep !in b
    requires rest == [] || rest[0] == sep
    ensures Split(b + rest, sep)[0] == b
  {
    if rest == [] {
      assert b + rest == b;
      SplitWhole(b, sep);
    } else {
      assert b + rest == b + [sep] + rest[1..];
      SplitFirst(b, rest[1..], sep);
    }
  }

  /** `s.split(sep)[1]` is exactly the text between the first and the second
      separator, or between the only separator and the end of `s`. */
  lemma SecondField(s: string, a: string, b: string, rest: string, sep: char)
    requires s == a + [sep] + b + rest
    requires sep !in a && sep !in b
    requires rest == [] || rest[0] == sep
    ensures |Split(s, sep)| >= 2
    ensures Split(s, sep)[1] == b
  {
    var t := b + rest;
    assert Split(s, sep) == [a] + Split(t, sep) by {
      assert s == a + [sep] + t;
      SplitFirst(a, t, sep);
    }
    assert Split(t, sep)[0] == b by {
      SplitHead(b, rest, sep);
    }
  }
}
