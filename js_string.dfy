/** `String.prototype.split` with a one-character separator, as the
    signature-header parsing uses it, together with its inverse (`join`)
    and the prefix/suffix functions that characterise it. */
module JsString {

  /** The longest prefix of `s` that does not contain `x`. */
  function TakeUntil(s: string, x: char): (r: string)
    ensures r <= s
    ensures x !in r
    ensures |r| < |s| ==> s[|r|] == x
  {
    if s == [] || s[0] == x then [] else [s[0]] + TakeUntil(s[1..], x)
  }

  /** A prefix free of `x` is skipped over by `TakeUntil`. */
  lemma {:induction false} TakeUntilSkip(a: string, b: string, x: char)
    requires x !in a
    ensures TakeUntil(a + b, x) == a + TakeUntil(b, x)
  {
    if a != [] {
      assert (a + b)[0] == a[0];
      assert (a + b)[1..] == a[1..] + b;
      assert TakeUntil(a + b, x) == [a[0]] + TakeUntil(a[1..] + b, x);
      TakeUntilSkip(a[1..], b, x);
      assert a == [a[0]] + a[1..];
      assert [a[0]] + (a[1..] + TakeUntil(b, x)) == a + TakeUntil(b, x);
    } else {
      assert a + b == b;
    }
  }

  /** A string without `x` is its own longest `x`-free prefix. */
  lemma TakeUntilWhole(s: string, x: char)
    requires x !in s
    ensures TakeUntil(s, x) == s
  {
    TakeUntilSkip(s, [], x);
    assert s + [] == s;
  }

  /** What follows the first `x` in `s`. */
  function DropThrough(s: string, x: char): (r: string)
    requires x in s
    ensures s == TakeUntil(s, x) + [x] + r
  {
    var k := |TakeUntil(s, x)|;
    assert k < |s|;
    assert s == s[..k] + [s[k]] + s[k + 1..];
    s[k + 1..]
  }

  /** When `s` is `a`, then `x`, then `b` with `a` free of `x`, the first `x`
      splits it into exactly `a` and `b`. */
  lemma AroundFirst(a: string, b: string, x: char)
    requires x !in a
    ensures x in a + [x] + b
    ensures TakeUntil(a + [x] + b, x) == a
    ensures DropThrough(a + [x] + b, x) == b
  {
    var s := a + [x] + b;
    assert s[|a|] == x;
    TakeUntilSkip(a, [x] + b, x);
    assert s == a + ([x] + b);
    var d := DropThrough(s, x);
    assert s == a + [x] + d;
    assert d == s[|a| + 1..] == b;
  }

  /** `parts.join(sep)`. */
  function Join(parts: seq<string>, sep: char): (s: string)
    requires |parts| >= 1
    decreases |parts|
  {
    if |parts| == 1 then parts[0] else parts[0] + [sep] + Join(parts[1..], sep)
  }

  /** `s.split(sep)`: the pieces between the separators, so always at least
      one piece ("".split(",") is [""]), none of them containing `sep`. */
  function Split(s: string, sep: char): (parts: seq<string>)
    ensures |parts| >= 1
    ensures forall i :: 0 <= i < |parts| ==> sep !in parts[i]
    decreases |s|
  {
    if s == [] then [""]
    else
      var rest := Split(s[1..], sep);
      if s[0] == sep then [""] + rest
      else [[s[0]] + rest[0]] + rest[1..]
  }

  /** A string free of the separator is one piece. */
  lemma {:induction false} SplitNoSeparator(s: string, sep: char)
    requires sep !in s
    ensures Split(s, sep) == [s]
    decreases |s|
  {
    if s != [] {
      SplitNoSeparator(s[1..], sep);
      assert [s[0]] + s[1..] == s;
    }
  }

  /** The first separator ends the first piece; the remaining pieces are
      the split of what follows it. */
  lemma {:induction false} SplitAround(a: string, b: string, sep: char)
    requires sep !in a
    ensures Split(a + [sep] + b, sep) == [a] + Split(b, sep)
    decreases |a|
  {
    var s := a + [sep] + b;
    if a == [] {
      assert s[0] == sep && s[1..] == b;
    } else {
      assert s[0] == a[0] && s[1..] == a[1..] + [sep] + b;
      SplitAround(a[1..], b, sep);
      assert [a[0]] + a[1..] == a;
    }
  }

  /** The first piece is the longest separator-free prefix. */
  lemma SplitFirst(s: string, sep: char)
    ensures Split(s, sep)[0] == TakeUntil(s, sep)
  {
    if sep in s {
      var a, b := TakeUntil(s, sep), DropThrough(s, sep);
      SplitAround(a, b, sep);
    } else {
      SplitNoSeparator(s, sep);
      TakeUntilWhole(s, sep);
    }
  }

  /** Round trip: joining the pieces with the separator gives back `s`. */
  lemma {:induction false} JoinSplit(s: string, sep: char)
    ensures Join(Split(s, sep), sep) == s
    decreases |s|
  {
    if sep in s {
      var a, b := TakeUntil(s, sep), DropThrough(s, sep);
      SplitAround(a, b, sep);
      var parts := Split(s, sep);
      assert parts[1..] == Split(b, sep);
      JoinSplit(b, sep);
    } else {
      SplitNoSeparator(s, sep);
    }
  }

  /** Round trip: separator-free pieces, joined and split again, come back. */
  lemma {:induction false} SplitJoin(parts: seq<string>, sep: char)
    requires |parts| >= 1
    requires forall i :: 0 <= i < |parts| ==> sep !in parts[i]
    ensures Split(Join(parts, sep), sep) == parts
    decreases |parts|
  {
    if |parts| == 1 {
      SplitNoSeparator(parts[0], sep);
    } else {
      SplitJoin(parts[1..], sep);
      SplitAround(parts[0], Join(parts[1..], sep), sep);
      assert [parts[0]] + parts[1..] == parts;
    }
  }
}
