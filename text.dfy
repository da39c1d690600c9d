/** String helpers with the semantics of the JavaScript built-ins the program uses:
    `trim`, `trimStart`, `trimEnd`, `indexOf`, `split` on one character and `join`. */
module Text {

  import opened Wrappers

  /** ECMAScript WhiteSpace and LineTerminator code points: exactly the characters that
      `String.prototype.trim` removes and that the regular-expression class `\s` matches. */
  predicate IsSpace(c: char)
  {
    || c == '\t' || c == '\n' || c == '\U{000B}' || c == '\U{000C}' || c == '\r' || c == ' '
    || c == '\U{00A0}' || c == '\U{1680}' || ('\U{2000}' <= c <= '\U{200A}')
    || c == '\U{2028}' || c == '\U{2029}' || c == '\U{202F}' || c == '\U{205F}'
    || c == '\U{3000}' || c == '\U{FEFF}'
  }

  /** Concatenation regroups freely. */
  lemma AppendAssoc<T>(a: seq<T>, b: seq<T>, c: seq<T>)
    ensures (a + b) + c == a + (b + c)
  {
  }

  /** `w` occurs in `s` starting at index `i`. */
  predicate At(s: string, i: nat, w: string)
  {
    i + |w| <= |s| && s[i..i + |w|] == w
  }

  /** An occurrence of `w + v` is an occurrence of `w` followed by one of `v`. */
  lemma AtSplit(s: string, i: nat, w: string, v: string)
    requires At(s, i, w + v)
    ensures At(s, i, w) && At(s, i + |w|, v)
  {
    assert s[i..i + |w|] == (w + v)[..|w|];
    assert s[i + |w|..i + |w| + |v|] == (w + v)[|w|..];
  }

  /** The characters of an occurrence. */
  lemma AtIndex(s: string, i: nat, w: string)
    requires At(s, i, w)
    ensures forall k :: 0 <= k < |w| ==> s[i + k] == w[k]
  {
    forall k | 0 <= k < |w| ensures s[i + k] == w[k] {
      assert s[i..i + |w|][k] == s[i + k];
    }
  }

  /** An occurrence in a piece `s[a..b]` is an occurrence in `s`, shifted by `a`. */
  lemma AtInSlice(s: string, a: nat, b: nat, j: nat, w: string)
    requires a <= b <= |s|
    ensures At(s[a..b], j, w) <==> (j + |w| <= b - a && At(s, a + j, w))
  {
    if j + |w| <= b - a {
      var x, y := s[a..b][j..j + |w|], s[a + j..a + j + |w|];
      assert |x| == |y|;
      assert forall k :: 0 <= k < |x| ==> x[k] == s[a + j + k] == y[k];
      assert x == y;
    }
  }

  /** An occurrence stays one when text is put in front, shifted by its length. */
  lemma AtShift(x: string, y: string, k: nat, w: string)
    requires At(y, k, w)
    ensures At(x + y, |x| + k, w)
  {
    assert (x + y)[|x| + k..|x| + k + |w|] == y[k..k + |w|];
  }

  /** A string occurs at the start of itself. */
  lemma AtSelf(w: string)
    ensures At(w, 0, w)
  {
    assert w[0..|w|] == w;
  }

  /** `s.startsWith(t)`. */
  predicate StartsWith(s: string, t: string)
  {
    |t| <= |s| && s[..|t|] == t
  }

  /** A concatenation starts with its first part. */
  lemma StartsWithConcat(x: string, y: string)
    ensures StartsWith(x + y, x)
  {
    assert (x + y)[..|x|] == x;
  }

  /** A string occurs at the start of itself followed by anything. */
  lemma AtStart(w: string, y: string)
    ensures At(w + y, 0, w)
  {
    assert (w + y)[..|w|] == w;
  }

  /** An occurrence stays one when text is put after it. */
  lemma AtExtend(s: string, y: string, k: nat, w: string)
    requires At(s, k, w)
    ensures At(s + y, k, w)
  {
    assert (s + y)[k..k + |w|] == s[k..k + |w|];
  }

  /** `s.endsWith(t)`. */
  predicate EndsWith(s: string, t: string)
  {
    |t| <= |s| && s[|s| - |t|..] == t
  }

  /** A string ends with itself, and still does with text put in front. */
  lemma EndsWithSelf(t: string)
    ensures EndsWith(t, t)
  {
    assert t[0..] == t;
  }

  lemma EndsWithFront(x: string, s: string, t: string)
    requires EndsWith(s, t)
    ensures EndsWith(x + s, t)
  {
    assert (x + s)[|x + s| - |t|..] == s[|s| - |t|..];
  }

  /** `w` occurs somewhere in `s` (`s.includes(w)`). */
  ghost predicate IsInfix(w: string, s: string)
  {
    exists i: nat :: At(s, i, w)
  }

  /** `s.trimStart()`: the suffix left after removing the leading whitespace. */
  function TrimStart(s: string): (r: string)
    ensures |r| <= |s| && r == s[|s| - |r|..]
    ensures forall i :: 0 <= i < |s| - |r| ==> IsSpace(s[i])
    ensures r == [] || !IsSpace(r[0])
    decreases |s|
  {
    if s != [] && IsSpace(s[0]) then TrimStart(s[1..]) else s
  }

  /** `s.trimEnd()`: the prefix left after removing the trailing whitespace. */
  function TrimEnd(s: string): (r: string)
    ensures |r| <= |s| && r == s[..|r|]
    ensures forall i :: |r| <= i < |s| ==> IsSpace(s[i])
    ensures r == [] || !IsSpace(r[|r| - 1])
    decreases |s|
  {
    if s != [] && IsSpace(s[|s| - 1]) then TrimEnd(s[..|s| - 1]) else s
  }

  /** `s.trim()`. */
  function Trim(s: string): (r: string)
    ensures |r| <= |s|
    ensures r == [] || (!IsSpace(r[0]) && !IsSpace(r[|r| - 1]))
  {
    TrimEnd(TrimStart(s))
  }

  /** Trimming changes a string exactly when it begins or ends with whitespace. */
  lemma TrimIdentity(s: string)
    ensures Trim(s) == s <==> (s == [] || (!IsSpace(s[0]) && !IsSpace(s[|s| - 1])))
  {
    if s != [] && !IsSpace(s[0]) && !IsSpace(s[|s| - 1]) {
      assert TrimStart(s) == s;
      assert TrimEnd(s) == s;
    }
  }

  /** Trailing whitespace appended to a string is all that `trimEnd` removes from it. */
  lemma {:induction false} TrimEndIgnoresTrailingSpace(s: string, w: string)
    requires forall i :: 0 <= i < |w| ==> IsSpace(w[i])
    ensures TrimEnd(s + w) == TrimEnd(s)
    decreases |w|
  {
    if w != [] {
      assert (s + w)[..|s + w| - 1] == s + w[..|w| - 1];
      TrimEndIgnoresTrailingSpace(s, w[..|w| - 1]);
    } else {
      assert s + w == s;
    }
  }

  /** `s.indexOf(c)`: the first index of `c`, if any. */
  function IndexOf(s: string, c: char): (r: Option<nat>)
    ensures r.Some? ==> r.value < |s| && s[r.value] == c && c !in s[..r.value]
    ensures r.None? <==> c !in s
  {
    if c !in s then None
    else if s[0] == c then Some(0)
    else
      var k := IndexOf(s[1..], c).value;
      assert s[..k + 1] == [s[0]] + s[1..][..k];
      Some(k + 1)
  }

  /** The first occurrence is the one `indexOf` finds. */
  lemma IndexOfIs(s: string, c: char, i: nat)
    requires i < |s| && s[i] == c && c !in s[..i]
    ensures IndexOf(s, c) == Some(i)
  {
  }

  /** `s.split(c)` for a one-character separator: the maximal runs between separators,
      always at least one (an empty string splits into `[""]`). */
  function Split(s: string, c: char): (r: seq<string>)
    ensures |r| >= 1
    ensures forall i :: 0 <= i < |r| ==> c !in r[i]
    decreases |s|
  {
    match IndexOf(s, c)
    case None => [s]
    case Some(i) => [s[..i]] + Split(s[i + 1..], c)
  }

  /** `xs.join(sep)`. */
  function Join(sep: string, xs: seq<string>): (r: string)
    decreases |xs|
  {
    if xs == [] then ""
    else if |xs| == 1 then xs[0]
    else xs[0] + sep + Join(sep, xs[1..])
  }

  /** Joining a piece in front of a non-empty join. */
  lemma JoinCons(sep: string, x: string, xs: seq<string>)
    requires xs != []
    ensures Join(sep, [x] + xs) == x + sep + Join(sep, xs)
  {
    assert ([x] + xs)[1..] == xs;
  }

  /** Joining the pieces of a split with the separator gives back the original text. */
  lemma {:induction false} JoinSplit(s: string, c: char)
    ensures Join([c], Split(s, c)) == s
    decreases |s|
  {
    match IndexOf(s, c)
    case None =>
    case Some(i) =>
      var rest := Split(s[i + 1..], c);
      assert Split(s, c) == [s[..i]] + rest;
      JoinCons([c], s[..i], rest);
      JoinSplit(s[i + 1..], c);
      assert s == s[..i] + [c] + s[i + 1..];
  }

  /** Splitting a join of separator-free pieces gives back the pieces. */
  lemma {:induction false} SplitJoin(xs: seq<string>, c: char)
    requires |xs| >= 1
    requires forall i :: 0 <= i < |xs| ==> c !in xs[i]
    ensures Split(Join([c], xs), c) == xs
    decreases |xs|
  {
    if |xs| > 1 {
      var s := Join([c], xs);
      assert s == xs[0] + [c] + Join([c], xs[1..]);
      assert s[..|xs[0]|] == xs[0];
      assert s[|xs[0]|] == c;
      assert IndexOf(s, c) == Some(|xs[0]|);
      assert s[|xs[0]| + 1..] == Join([c], xs[1..]);
      SplitJoin(xs[1..], c);
    }
  }

  /** Every piece of a join occurs in it. */
  lemma {:induction false} JoinHasPiece(sep: string, xs: seq<string>, i: nat)
    requires i < |xs|
    ensures IsInfix(xs[i], Join(sep, xs))
    decreases |xs|
  {
    var j := Join(sep, xs);
    if |xs| == 1 {
      assert At(j, 0, xs[0]);
    } else if i == 0 {
      assert j == xs[0] + (sep + Join(sep, xs[1..]));
      assert At(j, 0, xs[0]);
    } else {
      var rest := Join(sep, xs[1..]);
      JoinHasPiece(sep, xs[1..], i - 1);
      var k: nat :| At(rest, k, xs[i]);
      var pre := xs[0] + sep;
      assert j == pre + rest;
      AtShift(pre, rest, k, xs[i]);
    }
  }
}
