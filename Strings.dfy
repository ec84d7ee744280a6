/** String helpers shared by the model: repetition, concatenation of the
    pieces an output array holds, joining with a separator, and the
    `substring(0, n)` prefix, and `split` on a separator. */
module Strings {

  /** `n` copies of `c` (what `Array(n + 1).join(c)` builds). */
  function Repeat(c: char, n: nat): (r: string)
    ensures |r| == n
    ensures forall i :: 0 <= i < n ==> r[i] == c
  {
    if n == 0 then "" else Repeat(c, n - 1) + [c]
  }

  /** The concatenation of `parts`, as `parts.join('')`. */
  function Concat(parts: seq<string>): (r: string)
  {
    if parts == [] then "" else Concat(parts[..|parts| - 1]) + parts[|parts| - 1]
  }

  /** The elements of `parts` separated by `sep`, as `parts.join(sep)`. */
  function Join(parts: seq<string>, sep: string): (r: string)
  {
    if parts == [] then ""
    else if |parts| == 1 then parts[0]
    else Join(parts[..|parts| - 1], sep) + sep + parts[|parts| - 1]
  }

  /** `s.substring(0, n)`: the first `n` characters, or all of `s` when it is shorter. */
  function Prefix(s: string, n: nat): (r: string)
    ensures |r| == if |s| <= n then |s| else n
    ensures r == s[..|r|]
  {
    if |s| <= n then s else s[..n]
  }

  // ---------------------------------------------------------------------
  // Splitting on a separator, as String.prototype.split

  /** The number of occurrences of `c` in `s`. */
  function Count(s: string, c: char): (n: nat)
    ensures n > 0 <==> c in s
  {
    if s == [] then 0 else Count(s[..|s| - 1], c) + if s[|s| - 1] == c then 1 else 0
  }

  /** The pieces after one more character `c`: a separator starts a new
      piece, anything else extends the last one. */
  function Extend(p: seq<string>, c: char, sep: char): (q: seq<string>)
    requires |p| >= 1
    ensures |q| == |p| + if c == sep then 1 else 0
    ensures (forall i :: 0 <= i < |p| ==> sep !in p[i]) ==> forall i :: 0 <= i < |q| ==> sep !in q[i]
    ensures Join(q, [sep]) == Join(p, [sep]) + [c]
  {
    var n := |p|;
    if c == sep then
      assert (p + [""])[..n] == p;
      p + [""]
    else
      var q := p[..n - 1] + [p[n - 1] + [c]];
      assert q[..n - 1] == p[..n - 1];
      assert n > 1 ==> Join(p, [sep]) == Join(p[..n - 1], [sep]) + [sep] + p[n - 1];
      q
  }

  /** `s.split(sep)`: the pieces between the occurrences of `sep`. */
  function Split(s: string, sep: char): (parts: seq<string>)
    ensures |parts| == Count(s, sep) + 1
    ensures forall i :: 0 <= i < |parts| ==> sep !in parts[i]
    ensures Join(parts, [sep]) == s
    decreases |s|
  {
    if s == [] then [""]
    else
      var init := s[..|s| - 1];
      assert s == init + [s[|s| - 1]];
      var p := Split(init, sep);
      assert p == p[..|p| - 1] + [p[|p| - 1]];
      Extend(p, s[|s| - 1], sep)
  }

  /** `s.split(sep, limit)`: the first `limit` pieces; the rest is dropped. */
  function SplitLimit(s: string, sep: char, limit: nat): (parts: seq<string>)
    ensures |parts| <= limit && |parts| <= |Split(s, sep)|
    ensures parts == Split(s, sep)[..|parts|]
    ensures |parts| == limit || parts == Split(s, sep)
  {
    var all := Split(s, sep);
    if |all| <= limit then all else all[..limit]
  }

  /** Text without the separator is one piece. */
  lemma {:induction false} SplitWithout(s: string, sep: char)
    requires sep !in s
    ensures Split(s, sep) == [s]
    decreases |s|
  {
    if s != [] {
      var init := s[..|s| - 1];
      assert sep !in init by {
        assert forall k :: 0 <= k < |init| ==> init[k] == s[k];
      }
      SplitWithout(init, sep);
      assert init + [s[|s| - 1]] == s;
    }
  }

  lemma SplitSnoc(s: string, c: char, sep: char)
    ensures Split(s + [c], sep) == Extend(Split(s, sep), c, sep)
  {
    assert (s + [c])[..|s|] == s;
  }

  lemma ExtendAppend(q: seq<string>, p: seq<string>, c: char, sep: char)
    requires |p| >= 1
    ensures Extend(q + p, c, sep) == q + Extend(p, c, sep)
  {
    if c != sep {
      assert (q + p)[..|q + p| - 1] == q + p[..|p| - 1];
    }
  }

  /** Splitting at a separator splits the two sides apart. */
  lemma {:induction false} SplitAround(a: string, sep: char, b: string)
    ensures Split(a + [sep] + b, sep) == Split(a, sep) + Split(b, sep)
    decreases |b|
  {
    if b == [] {
      SplitSnoc(a, sep, sep);
    } else {
      var init := b[..|b| - 1];
      var c := b[|b| - 1];
      assert a + [sep] + b == (a + [sep] + init) + [c];
      assert b == init + [c];
      SplitSnoc(a + [sep] + init, c, sep);
      SplitAround(a, sep, init);
      ExtendAppend(Split(a, sep), Split(init, sep), c, sep);
      SplitSnoc(init, c, sep);
    }
  }

  /** Two separator-free fields joined by the separator split back apart. */
  lemma SplitTwo(x: string, y: string, sep: char)
    requires sep !in x && sep !in y
    ensures Split(x + [sep] + y, sep) == [x, y]
  {
    SplitAround(x, sep, y);
    SplitWithout(x, sep);
    SplitWithout(y, sep);
  }

  /** Three separator-free fields joined by the separator split back apart. */
  lemma SplitThree(f: string, x: string, y: string, sep: char)
    requires sep !in f && sep !in x && sep !in y
    ensures Split(f + [sep] + x + [sep] + y, sep) == [f, x, y]
  {
    var tail := x + [sep] + y;
    assert [f] + [x, y] == [f, x, y];
    assert f + [sep] + x + [sep] + y == f + [sep] + tail;
    SplitAround(f, sep, tail);
    SplitWithout(f, sep);
    SplitTwo(x, y, sep);
  }

  /** With a limit of as many pieces as `head` has, whatever follows the
      next separator is dropped. */
  lemma SplitLimitDropsRest(head: string, sep: char, rest: string, limit: nat)
    requires |Split(head, sep)| == limit
    ensures SplitLimit(head + [sep] + rest, sep, limit) == Split(head, sep)
  {
    var all := Split(head + [sep] + rest, sep);
    SplitAround(head, sep, rest);
    assert all[..limit] == Split(head, sep);
  }

  /** Pieces free of the separator come back from their join. */
  lemma {:induction false} SplitJoin(parts: seq<string>, sep: char)
    requires |parts| >= 1 && forall i :: 0 <= i < |parts| ==> sep !in parts[i]
    ensures Split(Join(parts, [sep]), sep) == parts
    decreases |parts|
  {
    var last := parts[|parts| - 1];
    SplitWithout(last, sep);
    if |parts| > 1 {
      var init := parts[..|parts| - 1];
      assert parts == init + [last];
      var j := Join(init, [sep]);
      assert Join(parts, [sep]) == j + [sep] + last;
      assert Split(j, sep) == init by {
        assert forall i :: 0 <= i < |init| ==> init[i] == parts[i];
        SplitJoin(init, sep);
      }
      SplitAround(j, sep, last);
    }
  }
}
