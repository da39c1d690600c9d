/** The file-block grammar of the model's replies, `<<<FILE: path>>>\n…<<<END_FILE>>>`,
    as the global regular expression `<<<FILE:\s*([^\n>]+)>>>\n([\s\S]*?)<<<END_FILE>>>`
    matches it: a hand-written scanner, proved equal to the declarative reading of the
    pattern with its greedy and lazy choices. Positions are absolute indices into the
    reply, as `lastIndex` is. */
module FileBlocks {

  import opened Wrappers
  import opened Text

  const OPENER := "<<<FILE:"
  const CLOSER := ">>>\n"
  const END_MARKER := "<<<END_FILE>>>"

  /** `<<<FILE:` at `i`, spelled out character by character. */
  predicate OpenerAt(t: string, i: nat)
  {
    && i + 8 <= |t|
    && t[i] == '<' && t[i + 1] == '<' && t[i + 2] == '<' && t[i + 3] == 'F'
    && t[i + 4] == 'I' && t[i + 5] == 'L' && t[i + 6] == 'E' && t[i + 7] == ':'
  }

  /** `>>>\n` at `i`, character by character. */
  predicate CloserAt(t: string, i: nat)
  {
    i + 4 <= |t| && t[i] == '>' && t[i + 1] == '>' && t[i + 2] == '>' && t[i + 3] == '\n'
  }

  /** `<<<END_FILE>>>` at `i`, character by character. */
  predicate EndMarkerAt(t: string, i: nat)
  {
    && i + 14 <= |t|
    && t[i] == '<' && t[i + 1] == '<' && t[i + 2] == '<' && t[i + 3] == 'E'
    && t[i + 4] == 'N' && t[i + 5] == 'D' && t[i + 6] == '_' && t[i + 7] == 'F'
    && t[i + 8] == 'I' && t[i + 9] == 'L' && t[i + 10] == 'E' && t[i + 11] == '>'
    && t[i + 12] == '>' && t[i + 13] == '>'
  }

  lemma OpenerAtIs(t: string, i: nat)
    ensures OpenerAt(t, i) <==> At(t, i, OPENER)
  {
    if i + 8 <= |t| {
      var w := t[i..i + 8];
      assert forall k :: 0 <= k < 8 ==> w[k] == t[i + k];
      if OpenerAt(t, i) {
        assert w == OPENER;
      }
    }
  }

  lemma CloserAtIs(t: string, i: nat)
    ensures CloserAt(t, i) <==> At(t, i, CLOSER)
  {
    if i + 4 <= |t| {
      var w := t[i..i + 4];
      assert forall k :: 0 <= k < 4 ==> w[k] == t[i + k];
      if CloserAt(t, i) {
        assert w == CLOSER;
      }
    }
  }

  lemma EndMarkerAtIs(t: string, i: nat)
    ensures EndMarkerAt(t, i) <==> At(t, i, END_MARKER)
  {
    if i + 14 <= |t| {
      var w := t[i..i + 14];
      assert forall k :: 0 <= k < 14 ==> w[k] == t[i + k];
      if EndMarkerAt(t, i) {
        assert w == END_MARKER;
      }
    }
  }

  /** A character of the path group `[^\n>]`. */
  predicate IsPathChar(c: char)
  {
    c != '\n' && c != '>'
  }

  /** One match of the pattern: the path group and the content group. */
  datatype Block = Block(path: string, content: string)

  /** Where a match lies: it starts at `start`, the path group is `t[pathStart..pathEnd]`,
      `>>>\n` follows it, and the content runs to `endAt`, where `<<<END_FILE>>>` begins. */
  datatype Span = Span(start: nat, pathStart: nat, pathEnd: nat, endAt: nat)

  /** The pattern read declaratively: a match starts at `p` with path group `t[s..f]`
      and end marker at `m`. */
  ghost predicate IsMatch(t: string, p: nat, s: nat, f: nat, m: nat)
  {
    && At(t, p, OPENER)
    && p + 8 <= s < f
    && f + 4 <= m
    && At(t, f, CLOSER)
    && At(t, m, END_MARKER)
    && (forall i :: p + 8 <= i < s ==> IsSpace(t[i]))
    && (forall i :: s <= i < f ==> IsPathChar(t[i]))
  }

  /** The end of the longest whitespace run from `i` (greedy `\s*`). */
  function SpaceEnd(t: string, i: nat): (e: nat)
    requires i <= |t|
    ensures i <= e <= |t|
    decreases |t| - i
  {
    if i < |t| && IsSpace(t[i]) then SpaceEnd(t, i + 1) else i
  }

  /** `SpaceEnd` stops at the first character that is not whitespace. */
  lemma {:induction false} SpaceEndSpec(t: string, i: nat)
    requires i <= |t|
    ensures forall k :: i <= k < SpaceEnd(t, i) ==> IsSpace(t[k])
    ensures SpaceEnd(t, i) < |t| ==> !IsSpace(t[SpaceEnd(t, i)])
    decreases |t| - i
  {
    if i < |t| && IsSpace(t[i]) {
      SpaceEndSpec(t, i + 1);
    }
  }

  /** The end of the longest run of path characters from `i` (greedy `[^\n>]+`). */
  function PathEnd(t: string, i: nat): (e: nat)
    requires i <= |t|
    ensures i <= e <= |t|
    decreases |t| - i
  {
    if i < |t| && IsPathChar(t[i]) then PathEnd(t, i + 1) else i
  }

  /** `PathEnd` stops at the first newline or `>`. */
  lemma {:induction false} PathEndSpec(t: string, i: nat)
    requires i <= |t|
    ensures forall k :: i <= k < PathEnd(t, i) ==> IsPathChar(t[k])
    ensures PathEnd(t, i) < |t| ==> !IsPathChar(t[PathEnd(t, i)])
    decreases |t| - i
  {
    if i < |t| && IsPathChar(t[i]) {
      PathEndSpec(t, i + 1);
    }
  }

  /** The first end marker at or after `i` (lazy `[\s\S]*?`). */
  function FindEnd(t: string, i: nat): (r: Option<nat>)
    ensures r.Some? ==> i <= r.value && r.value + 14 <= |t|
    decreases |t| - i
  {
    if i + 14 > |t| then None
    else if EndMarkerAt(t, i) then Some(i)
    else FindEnd(t, i + 1)
  }

  /** `FindEnd` finds an end marker, and none comes before it; it finds nothing only when
      there is no end marker from `i` on. */
  lemma {:induction false} FindEndSpec(t: string, i: nat)
    ensures FindEnd(t, i).Some? ==> At(t, FindEnd(t, i).value, END_MARKER)
    ensures FindEnd(t, i).Some? ==> forall j :: i <= j < FindEnd(t, i).value ==> !At(t, j, END_MARKER)
    ensures FindEnd(t, i).None? ==> forall j :: i <= j ==> !At(t, j, END_MARKER)
    decreases |t| - i
  {
    EndMarkerAtIs(t, i);
    if i + 14 <= |t| && !EndMarkerAt(t, i) {
      FindEndSpec(t, i + 1);
    }
  }

  /** The match that the pattern makes at position `p`, if any. `\s*` takes the longest
      whitespace run; `[^\n>]+` then takes the longest run of path characters, and when
      that run is empty `\s*` gives back its last character, which succeeds only if that
      character is not a newline. */
  function MatchAt(t: string, p: nat): (r: Option<Span>)
    ensures r.Some? ==> r.value.start == p && p + 8 <= r.value.pathStart < r.value.pathEnd
    ensures r.Some? ==> r.value.pathEnd + 4 <= r.value.endAt && r.value.endAt + 14 <= |t|
  {
    if !OpenerAt(t, p) then None
    else
      var e := SpaceEnd(t, p + 8);
      var f := PathEnd(t, e);
      if f == e && (e == p + 8 || t[e - 1] == '\n') then None
      else
        var s := if f > e then e else e - 1;
        if !CloserAt(t, f) then None
        else match FindEnd(t, f + 4)
          case None => None
          case Some(m) => Some(Span(p, s, f, m))
  }

  /** What the scanner finds at `p` is a match of the pattern. */
  lemma MatchAtSound(t: string, p: nat)
    ensures MatchAt(t, p).Some? ==>
      var sp := MatchAt(t, p).value;
      IsMatch(t, p, sp.pathStart, sp.pathEnd, sp.endAt)
  {
    OpenerAtIs(t, p);
    if OpenerAt(t, p) {
      SpaceEndSpec(t, p + 8);
      var e := SpaceEnd(t, p + 8);
      PathEndSpec(t, e);
      var f := PathEnd(t, e);
      CloserAtIs(t, f);
      FindEndSpec(t, f + 4);
    }
  }

  /** A run of path characters from `i` to `j`, ended by a character outside the class,
      is what `PathEnd` takes. */
  lemma PathEndIs(t: string, i: nat, j: nat)
    requires i <= j < |t|
    requires forall k :: i <= k < j ==> IsPathChar(t[k])
    requires !IsPathChar(t[j])
    ensures PathEnd(t, i) == j
  {
    PathEndSpec(t, i);
    assert PathEnd(t, i) <= j;
  }

  /** Every way of reading a match at `p` has the same path end; the scanner picks the one
      with the latest path start (greedy `\s*`) and the earliest end marker (lazy content),
      and it finds a match whenever the pattern has one. */
  lemma MatchAtComplete(t: string, p: nat, s: nat, f: nat, m: nat)
    requires IsMatch(t, p, s, f, m)
    ensures MatchAt(t, p).Some?
    ensures s <= MatchAt(t, p).value.pathStart
    ensures MatchAt(t, p).value.pathEnd == f
    ensures MatchAt(t, p).value.endAt <= m
  {
    assert t[f] == CLOSER[0];
    OpenerAtIs(t, p);
    CloserAtIs(t, f);
    SpaceEndSpec(t, p + 8);
    var e := SpaceEnd(t, p + 8);
    assert s <= e;
    assert e <= f;
    PathEndIs(t, e, f);
    FindEndSpec(t, f + 4);
    assert FindEnd(t, f + 4).Some?;
  }

  /** The block a span denotes. */
  function BlockOf(t: string, sp: Span): Block
    requires sp.pathStart <= sp.pathEnd && sp.pathEnd + 4 <= sp.endAt <= |t|
  {
    Block(t[sp.pathStart..sp.pathEnd], t[sp.pathEnd + 4..sp.endAt])
  }

  /** One call of `exec` with `lastIndex == from`: the match at the first position from
      `from` on where the pattern matches. */
  function NextMatch(t: string, from: nat): (r: Option<Span>)
    requires from <= |t|
    ensures r.Some? ==> from <= r.value.start && r.value.start + 8 <= r.value.pathStart < r.value.pathEnd
    ensures r.Some? ==> r.value.pathEnd + 4 <= r.value.endAt && r.value.endAt + 14 <= |t|
    decreases |t| - from
  {
    match MatchAt(t, from)
    case Some(sp) => Some(sp)
    case None => if from == |t| then None else NextMatch(t, from + 1)
  }

  /** What `NextMatch` finds is the match the pattern makes where it starts. */
  lemma {:induction false} NextMatchFound(t: string, from: nat)
    requires from <= |t|
    ensures NextMatch(t, from).Some? ==> MatchAt(t, NextMatch(t, from).value.start) == NextMatch(t, from)
    decreases |t| - from
  {
    if MatchAt(t, from).None? && from < |t| {
      NextMatchFound(t, from + 1);
    }
  }

  /** No match starts before the one `NextMatch` finds; it finds nothing only when no
      match starts from `from` on. */
  lemma {:induction false} NextMatchFirst(t: string, from: nat)
    requires from <= |t|
    ensures forall j :: from <= j < (if NextMatch(t, from).Some? then NextMatch(t, from).value.start else |t| + 1) ==>
      MatchAt(t, j).None?
    decreases |t| - from
  {
    if MatchAt(t, from).None? && from < |t| {
      NextMatchFirst(t, from + 1);
    }
  }

  /** Positions where no match starts are passed over. */
  lemma {:induction false} NextMatchSkip(t: string, from: nat, p: nat)
    requires from <= p <= |t|
    requires forall j :: from <= j < p ==> MatchAt(t, j).None?
    ensures NextMatch(t, from) == NextMatch(t, p)
    decreases p - from
  {
    if from < p {
      NextMatchSkip(t, from + 1, p);
    }
  }

  /** All matches of the global pattern from `lastIndex == from` on, in document order:
      each round of the `exec` loop takes the next match and resumes just past its end
      marker; the loop stops when `exec` finds nothing. */
  function Scan(t: string, from: nat): (bs: seq<Block>)
    requires from <= |t|
    decreases |t| - from
  {
    match NextMatch(t, from)
    case None => []
    case Some(sp) => [BlockOf(t, sp)] + Scan(t, sp.endAt + 14)
  }

  /** All blocks of a reply (`lastIndex` reset to 0). */
  function Blocks(t: string): seq<Block>
  {
    Scan(t, 0)
  }

  /** Positions where no match starts are passed over: the scan from `from` is the scan
      from the next position where one may start. */
  lemma ScanSkip(t: string, from: nat, p: nat)
    requires from <= p <= |t|
    requires forall j :: from <= j < p ==> MatchAt(t, j).None?
    ensures Scan(t, from) == Scan(t, p)
  {
    NextMatchSkip(t, from, p);
  }

  /** A match at `p`: the scan from `p` yields its block and resumes past its end marker. */
  lemma ScanAt(t: string, p: nat, sp: Span, b: Block, q: nat)
    requires p <= |t| && MatchAt(t, p) == Some(sp)
    requires BlockOf(t, sp) == b && q == sp.endAt + 14
    ensures p + 27 <= q <= |t|
    ensures Scan(t, p) == [b] + Scan(t, q)
  {
    assert NextMatch(t, p) == Some(sp);
  }

  /** A block is found only where an end marker follows, so a reply without one yields
      no block, whatever openers it holds. */
  lemma NoEndMarkerNoScan(t: string, from: nat)
    requires from <= |t|
    requires forall j: nat :: !At(t, j, END_MARKER)
    ensures Scan(t, from) == []
  {
    NextMatchFound(t, from);
    if NextMatch(t, from).Some? {
      MatchAtSound(t, NextMatch(t, from).value.start);
    }
  }

  /** A reply without an end marker yields no block. */
  lemma NoEndMarkerNoBlocks(t: string)
    requires forall j: nat :: !At(t, j, END_MARKER)
    ensures Blocks(t) == []
  {
    NoEndMarkerNoScan(t, 0);
  }

  /** The shape every extracted block has: a non-empty path without newline or `>`, and
      a content that holds no end marker (it stops at the first one). */
  ghost predicate WellShaped(b: Block)
  {
    && |b.path| > 0
    && (forall i :: 0 <= i < |b.path| ==> IsPathChar(b.path[i]))
    && (forall j: nat :: !At(b.content, j, END_MARKER))
  }

  /** The content of a match holds no end marker: it stops at the first one. */
  lemma MatchContentShape(t: string, sp: Span)
    requires MatchAt(t, sp.start) == Some(sp)
    ensures forall j: nat :: !At(BlockOf(t, sp).content, j, END_MARKER)
  {
    var c0 := sp.pathEnd + 4;
    assert FindEnd(t, c0) == Some(sp.endAt);
    FindEndSpec(t, c0);
    forall j: nat ensures !At(t[c0..sp.endAt], j, END_MARKER) {
      AtInSlice(t, c0, sp.endAt, j, END_MARKER);
    }
  }

  /** The path of a match is a non-empty run of path characters. */
  lemma MatchPathShape(t: string, sp: Span)
    requires MatchAt(t, sp.start) == Some(sp)
    ensures |BlockOf(t, sp).path| > 0
    ensures forall i :: 0 <= i < |BlockOf(t, sp).path| ==> IsPathChar(BlockOf(t, sp).path[i])
  {
    MatchAtSound(t, sp.start);
    var path := t[sp.pathStart..sp.pathEnd];
    forall i | 0 <= i < |path| ensures IsPathChar(path[i]) {
      assert path[i] == t[sp.pathStart + i];
    }
  }

  /** Every match denotes a well-shaped block. */
  lemma MatchShape(t: string, sp: Span)
    requires MatchAt(t, sp.start) == Some(sp)
    ensures WellShaped(BlockOf(t, sp))
  {
    MatchContentShape(t, sp);
    MatchPathShape(t, sp);
  }

  /** Each match takes at least `<<<FILE:`, one path character, `>>>\n` and the end
      marker, so the text from `from` on, of length `n`, yields at most `n / 27` blocks. */
  lemma {:induction false} ScanCount(t: string, from: nat)
    requires from <= |t|
    ensures 27 * |Scan(t, from)| <= |t| - from
    decreases |t| - from
  {
    match NextMatch(t, from)
    case None =>
    case Some(sp) =>
      var q := sp.endAt + 14;
      ScanCount(t, q);
      assert |Scan(t, from)| == 1 + |Scan(t, q)|;
  }

  /** Every block the scan yields is well shaped. */
  lemma {:induction false} ScanWellShaped(t: string, from: nat)
    requires from <= |t|
    ensures forall i :: 0 <= i < |Scan(t, from)| ==> WellShaped(Scan(t, from)[i])
    decreases |t| - from
  {
    NextMatchFound(t, from);
    match NextMatch(t, from)
    case None =>
    case Some(sp) =>
      var next := sp.endAt + 14;
      MatchShape(t, sp);
      ScanWellShaped(t, next);
      var bs, rest := Scan(t, from), Scan(t, next);
      assert bs == [BlockOf(t, sp)] + rest;
      assert forall i :: 1 <= i < |bs| ==> bs[i] == rest[i - 1];
  }

  /** The text the program's own prompt asks the model to write for one file. */
  function Render(b: Block): string
  {
    OPENER + (" " + (b.path + (CLOSER + (b.content + END_MARKER))))
  }

  /** A block that `Render` writes so that the scanner reads back exactly its path: a
      well-shaped block whose path starts with a non-space character. */
  ghost predicate Renderable(b: Block)
  {
    WellShaped(b) && !IsSpace(b.path[0])
  }

  /** A text with no file opener in it. */
  ghost predicate NoOpener(s: string)
  {
    forall j: nat :: !At(s, j, OPENER)
  }

  /** A reply made of rendered blocks with free text between them:
      `seps[0] + Render(bs[0]) + seps[1] + … + Render(bs[n-1]) + seps[n]`. */
  function Document(bs: seq<Block>, seps: seq<string>): string
    requires |seps| == |bs| + 1
    decreases |bs|
  {
    if bs == [] then seps[0] else seps[0] + Render(bs[0]) + Document(bs[1..], seps[1..])
  }

  /** The end marker overlaps itself only trivially: no end marker starts fewer than 14
      positions before another one. */
  lemma EndMarkerUnbordered(t: string, j: nat, q: nat)
    requires j < q < j + 14
    requires At(t, q, END_MARKER)
    ensures !At(t, j, END_MARKER)
  {
    if j + 14 <= |t| {
      AtIndex(t, q, END_MARKER);
      var d := q - j;
      if d <= 2 {
        assert t[q + (3 - d)] == END_MARKER[3 - d] == '<';
        assert t[j..j + 14][3] != END_MARKER[3];
      } else {
        assert t[q + 0] == '<';
        assert '<' !in END_MARKER[3..];
        assert END_MARKER[d] == END_MARKER[3..][d - 3];
        assert t[j..j + 14][d] != END_MARKER[d];
      }
    }
  }

  /** Likewise no opener starts fewer than 8 positions before another one. */
  lemma OpenerUnbordered(t: string, j: nat, q: nat)
    requires j < q < j + 8
    requires At(t, q, OPENER)
    ensures !At(t, j, OPENER)
  {
    if j + 8 <= |t| {
      AtIndex(t, q, OPENER);
      var d := q - j;
      if d <= 2 {
        assert t[q + (3 - d)] == OPENER[3 - d] == '<';
        assert t[j..j + 8][3] != OPENER[3];
      } else {
        assert t[q + 0] == '<';
        assert '<' !in OPENER[3..];
        assert OPENER[d] == OPENER[3..][d - 3];
        assert t[j..j + 8][d] != OPENER[d];
      }
    }
  }

  /** When `content` and then `END_MARKER` stand at `c0`, the first end marker from `c0`
      is the one after the content. */
  lemma FirstEndAfterContent(t: string, c0: nat, content: string)
    requires At(t, c0, content)
    requires At(t, c0 + |content|, END_MARKER)
    requires forall j: nat :: !At(content, j, END_MARKER)
    ensures FindEnd(t, c0) == Some(c0 + |content|)
  {
    var q := c0 + |content|;
    forall j | c0 <= j < q ensures !At(t, j, END_MARKER) {
      if j + 14 <= q {
        AtInSlice(t, c0, q, j - c0, END_MARKER);
      } else {
        EndMarkerUnbordered(t, j, q);
      }
    }
    FindEndSpec(t, c0);
  }

  /** `MatchAt` assembled from the values of its steps, for a path group that is not
      empty. */
  lemma MatchAtOfSteps(t: string, p: nat, e: nat, f: nat, c0: nat, m: nat)
    requires At(t, p, OPENER)
    requires SpaceEnd(t, p + 8) == e
    requires PathEnd(t, e) == f && e < f
    requires At(t, f, CLOSER)
    requires c0 == f + 4 && FindEnd(t, c0) == Some(m)
    ensures MatchAt(t, p) == Some(Span(p, e, f, m))
  {
    OpenerAtIs(t, p);
    CloserAtIs(t, f);
  }

  /** One space before a path that starts with a non-space: `\s*` takes just the space. */
  lemma SpaceBeforePath(t: string, i: nat, path: string)
    requires At(t, i, " ") && At(t, i + 1, path)
    requires path != [] && !IsSpace(path[0])
    ensures SpaceEnd(t, i) == i + 1
  {
    assert t[i] == t[i..i + 1][0];
    assert t[i + 1] == t[i + 1..i + 1 + |path|][0];
    assert SpaceEnd(t, i + 1) == i + 1;
  }

  /** A path of path characters followed by `>>>\n`: `[^\n>]+` takes exactly the path. */
  lemma PathBeforeCloser(t: string, i: nat, path: string)
    requires At(t, i, path) && At(t, i + |path|, CLOSER)
    requires forall k :: 0 <= k < |path| ==> IsPathChar(path[k])
    ensures PathEnd(t, i) == i + |path|
  {
    var j := i + |path|;
    forall k | i <= k < j ensures IsPathChar(t[k]) {
      assert t[k] == t[i..j][k - i];
    }
    assert t[j] == t[j..j + 4][0];
    PathEndIs(t, i, j);
  }

  /** The pieces of a rendered block at `p`: the opener, one space, the path, `>>>\n`,
      the content and the end marker. */
  ghost predicate PartsAt(t: string, p: nat, b: Block)
  {
    && At(t, p, OPENER) && At(t, p + 8, " ") && At(t, p + 9, b.path)
    && At(t, p + 9 + |b.path|, CLOSER)
    && At(t, p + 13 + |b.path|, b.content)
    && At(t, p + 13 + |b.path| + |b.content|, END_MARKER)
  }

  /** The pieces of a rendered block, each where `Render` puts it. */
  lemma RenderedParts(t: string, p: nat, b: Block)
    requires At(t, p, Render(b))
    ensures PartsAt(t, p, b)
    ensures |Render(b)| == 27 + |b.path| + |b.content|
  {
    var n := |b.path|;
    AtSplit(t, p, OPENER, " " + (b.path + (CLOSER + (b.content + END_MARKER))));
    AtSplit(t, p + 8, " ", b.path + (CLOSER + (b.content + END_MARKER)));
    AtSplit(t, p + 9, b.path, CLOSER + (b.content + END_MARKER));
    AtSplit(t, p + 9 + n, CLOSER, b.content + END_MARKER);
    AtSplit(t, p + 13 + n, b.content, END_MARKER);
  }

  /** The scanner finds a rendered block where it stands and reads it back unchanged. */
  lemma MatchOfParts(t: string, p: nat, b: Block)
    requires Renderable(b) && PartsAt(t, p, b)
    ensures var sp := Span(p, p + 9, p + 9 + |b.path|, p + 13 + |b.path| + |b.content|);
      MatchAt(t, p) == Some(sp) && BlockOf(t, sp) == b
  {
    SpaceBeforePath(t, p + 8, b.path);
    PathBeforeCloser(t, p + 9, b.path);
    FirstEndAfterContent(t, p + 13 + |b.path|, b.content);
    MatchAtOfSteps(t, p, p + 9, p + 9 + |b.path|, p + 13 + |b.path|, p + 13 + |b.path| + |b.content|);
  }

  /** No match starts in an opener-free stretch `t[from..p]` when an opener stands at
      `p`. */
  lemma NoMatchInGap(t: string, from: nat, p: nat)
    requires from <= p <= |t|
    requires NoOpener(t[from..p])
    requires At(t, p, OPENER)
    ensures forall j :: from <= j < p ==> MatchAt(t, j).None?
  {
    forall j | from <= j < p ensures !OpenerAt(t, j) {
      OpenerAtIs(t, j);
      if j + 8 <= p {
        AtInSlice(t, from, p, j - from, OPENER);
      } else {
        OpenerUnbordered(t, j, p);
      }
    }
  }

  /** No block is found in an opener-free tail `t[from..]`. */
  lemma NoMatchInTail(t: string, from: nat)
    requires from <= |t|
    requires NoOpener(t[from..])
    ensures Scan(t, from) == []
  {
    assert t[from..] == t[from..|t|];
    forall j | from <= j < |t| ensures MatchAt(t, j).None? {
      OpenerAtIs(t, j);
      AtInSlice(t, from, |t|, j - from, OPENER);
    }
    ScanSkip(t, from, |t|);
    assert MatchAt(t, |t|).None?;
  }

  /** An opener-free stretch and then a rendered block: the scan yields that block and
      resumes just after it. */
  lemma ScanPastRendered(t: string, from: nat, p: nat, b: Block, q: nat)
    requires Renderable(b)
    requires from <= p && PartsAt(t, p, b)
    requires NoOpener(t[from..p])
    requires q == p + 27 + |b.path| + |b.content|
    ensures q <= |t|
    ensures Scan(t, from) == [b] + Scan(t, q)
  {
    var sp := Span(p, p + 9, p + 9 + |b.path|, p + 13 + |b.path| + |b.content|);
    MatchOfParts(t, p, b);
    NoMatchInGap(t, from, p);
    ScanSkip(t, from, p);
    ScanAt(t, p, sp, b, q);
  }

  /** A reply of N rendered blocks separated by text without openers yields exactly those
      N blocks, in order, duplicates included. Stated for a scan that starts at `from`,
      where the rest of the text is such a reply. */
  lemma {:induction false} ScanDocument(t: string, from: nat, bs: seq<Block>, seps: seq<string>)
    requires |seps| == |bs| + 1
    requires forall i :: 0 <= i < |bs| ==> Renderable(bs[i])
    requires forall i :: 0 <= i < |seps| ==> NoOpener(seps[i])
    requires from <= |t| && t[from..] == Document(bs, seps)
    ensures Scan(t, from) == bs
    decreases |bs|
  {
    var sep := seps[0];
    if bs == [] {
      NoMatchInTail(t, from);
    } else {
      var b := bs[0];
      var rest := Document(bs[1..], seps[1..]);
      var p := from + |sep|;
      assert t[from..] == sep + (Render(b) + rest);
      var q := p + 27 + |b.path| + |b.content|;
      assert q <= |t| && t[q..] == rest && Scan(t, from) == [b] + Scan(t, q) by {
        assert At(t, from, sep + (Render(b) + rest));
        AtSplit(t, from, sep, Render(b) + rest);
        AtSplit(t, p, Render(b), rest);
        RenderedParts(t, p, b);
        ScanPastRendered(t, from, p, b, q);
      }
      assert Scan(t, q) == bs[1..] by {
        ScanDocument(t, q, bs[1..], seps[1..]);
      }
      assert bs == [b] + bs[1..];
    }
  }

  /** `Blocks` inverts `Document`. */
  lemma BlocksOfDocument(bs: seq<Block>, seps: seq<string>)
    requires |seps| == |bs| + 1
    requires forall i :: 0 <= i < |bs| ==> Renderable(bs[i])
    requires forall i :: 0 <= i < |seps| ==> NoOpener(seps[i])
    ensures Blocks(Document(bs, seps)) == bs
  {
    var d := Document(bs, seps);
    assert d[0..] == d;
    ScanDocument(d, 0, bs, seps);
  }

  /** A reply with one block and nothing around it. */
  lemma SingleBlock(b: Block)
    requires Renderable(b)
    ensures Blocks(Render(b)) == [b]
  {
    assert NoOpener("") by {
      forall j: nat ensures !At("", j, OPENER) { }
    }
    assert Document([b], ["", ""]) == Render(b);
    BlocksOfDocument([b], ["", ""]);
  }

  /** The greeting example: `<<<FILE: index.html>>>\n<h1>Hi</h1>\n<<<END_FILE>>>` yields
      the one block `index.html` with content `<h1>Hi</h1>\n`. */
  lemma IndexHtmlExample(reply: string)
    requires reply == OPENER + " index.html" + CLOSER + "<h1>Hi</h1>\n" + END_MARKER
    ensures Blocks(reply) == [Block("index.html", "<h1>Hi</h1>\n")]
  {
    var b := Block("index.html", "<h1>Hi</h1>\n");
    assert Render(b) == OPENER + " index.html" + CLOSER + "<h1>Hi</h1>\n" + END_MARKER;
    SingleBlock(b);
  }

  /** An opener inside a block's content does not start a new block: the content runs to
      the first end marker and swallows the inner opener. */
  lemma InnerOpenerSwallowed(reply: string)
    requires reply == OPENER + " a" + CLOSER + "x<<<FILE: b>>>\ny" + END_MARKER
    ensures Blocks(reply) == [Block("a", "x<<<FILE: b>>>\ny")]
  {
    var b := Block("a", "x<<<FILE: b>>>\ny");
    assert Render(b) == OPENER + " a" + CLOSER + "x<<<FILE: b>>>\ny" + END_MARKER;
    forall j: nat ensures !At(b.content, j, END_MARKER) {
      if j + 14 <= |b.content| {
        assert b.content[j + 3] != 'E';
        assert b.content[j..j + 14][3] != END_MARKER[3];
      }
    }
    SingleBlock(b);
  }
}
