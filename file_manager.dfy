/** The file manager of one session: it extracts the file blocks of a reply, sanitises
    each declared path, writes the trimmed content under the session directory, keeps the
    raw content in an insertion-ordered snapshot, and renders that snapshot as the
    context of the next prompt. */
module FileManager {

  import opened Wrappers
  import opened Text
  import opened FileBlocks
  import opened Disk
  import opened Timestamps

  // ---------------------------------------------------------------------------------
  // The path sanitiser: `filePath.trim().replace(/\.\.\/|\.\.\\/g, "").replace(/^\//, "")`

  /** `../` or `..\` starts at `i`. */
  predicate TraversalAt(s: string, i: nat)
  {
    i + 3 <= |s| && s[i] == '.' && s[i + 1] == '.' && (s[i + 2] == '/' || s[i + 2] == '\\')
  }

  /** One left-to-right pass that deletes each `../` and `..\` it meets; the search goes on
      after the deleted text, so what the deletion brings together is not looked at again. */
  function RemoveTraversals(s: string): (r: string)
    ensures |r| <= |s|
    decreases |s|
  {
    if TraversalAt(s, 0) then RemoveTraversals(s[3..])
    else if s == [] then []
    else [s[0]] + RemoveTraversals(s[1..])
  }

  /** `s` holds no `../` and no `..\`. */
  predicate NoTraversal(s: string)
  {
    forall i :: 0 <= i < |s| ==> !TraversalAt(s, i)
  }

  /** A text without traversals passes unchanged. */
  lemma {:induction false} RemoveNothing(s: string)
    requires NoTraversal(s)
    ensures RemoveTraversals(s) == s
    decreases |s|
  {
    if s != [] {
      assert !TraversalAt(s, 0);
      var t := s[1..];
      forall i | 0 <= i < |t| ensures !TraversalAt(t, i) {
        assert !TraversalAt(s, i + 1);
      }
      RemoveNothing(t);
    }
  }

  /** An occurrence anywhere makes the pass delete something: the scan either deletes at
      the front or reaches the occurrence one character at a time. */
  lemma {:induction false} RemoveSomething(s: string, i: nat)
    requires TraversalAt(s, i)
    ensures |RemoveTraversals(s)| < |s|
    decreases i
  {
    if !TraversalAt(s, 0) {
      assert i > 0;
      assert TraversalAt(s[1..], i - 1);
      RemoveSomething(s[1..], i - 1);
    }
  }

  /** The pass changes a text exactly when the text holds a traversal. */
  lemma RemoveTraversalsIdentity(s: string)
    ensures RemoveTraversals(s) == s <==> NoTraversal(s)
  {
    if NoTraversal(s) {
      RemoveNothing(s);
    } else {
      var i :| 0 <= i < |s| && TraversalAt(s, i);
      RemoveSomething(s, i);
    }
  }

  /** `.replace(/^\//, "")`: at most one leading slash goes. */
  function StripLeadingSlash(s: string): (r: string)
    ensures |r| <= |s|
  {
    if s != [] && s[0] == '/' then s[1..] else s
  }

  /** The sanitised path a block is written under. */
  function Sanitise(p: string): string
  {
    StripLeadingSlash(RemoveTraversals(Trim(p)))
  }

  /** Trimming that removes nothing leaves the string as it is. */
  lemma TrimSameLength(s: string)
    requires |Trim(s)| == |s|
    ensures Trim(s) == s
  {
    var a := TrimStart(s);
    assert |a| == |s| && a == s[|s| - |a|..];
    assert a == s;
  }

  /** A path passes the sanitiser unchanged exactly when it has no surrounding whitespace,
      no `../` or `..\`, and no leading `/`. */
  lemma SanitiseIdentity(p: string)
    ensures Sanitise(p) == p <==> (Trim(p) == p && NoTraversal(p) && (p == [] || p[0] != '/'))
  {
    var t := Trim(p);
    var r := RemoveTraversals(t);
    RemoveTraversalsIdentity(t);
    if Sanitise(p) == p {
      assert |p| <= |r| <= |t| <= |p|;
      TrimSameLength(p);
      if !NoTraversal(t) {
        var i :| 0 <= i < |t| && TraversalAt(t, i);
        RemoveSomething(t, i);
      }
    }
  }

  /** A traversal at the front is deleted. */
  lemma RemoveFront(s: string)
    requires TraversalAt(s, 0)
    ensures RemoveTraversals(s) == RemoveTraversals(s[3..])
  {
  }

  /** Any other first character is kept. */
  lemma KeepFront(s: string)
    requires s != [] && !TraversalAt(s, 0)
    ensures RemoveTraversals(s) == [s[0]] + RemoveTraversals(s[1..])
  {
  }

  /** A path that is already clean: no surrounding whitespace, no traversal, not empty. */
  predicate Clean(p: string)
  {
    p != [] && Trim(p) == p && NoTraversal(p)
  }

  /** Text put in front of a clean path, starting with a non-blank character, is not
      trimmed away. */
  lemma TrimPrefixed(x: string, p: string)
    requires x != [] && !IsSpace(x[0]) && Clean(p)
    ensures Trim(x + p) == x + p
  {
    TrimIdentity(p);
    TrimIdentity(x + p);
  }

  /** A character other than `.` put in front adds no traversal. */
  lemma NoTraversalCons(c: char, p: string)
    requires c != '.' && NoTraversal(p)
    ensures NoTraversal([c] + p)
  {
    var s := [c] + p;
    forall i | 0 <= i < |s| ensures !TraversalAt(s, i) {
      if i > 0 {
        assert !TraversalAt(p, i - 1);
      }
    }
  }

  /** What the sanitiser does to a trimmed path. */
  lemma SanitiseTrimmed(s: string)
    requires Trim(s) == s
    ensures Sanitise(s) == StripLeadingSlash(RemoveTraversals(s))
  {
  }

  /** Every leading `../` is removed, so a path that climbs out of the directory lands
      inside it: `../../etc/passwd` becomes `etc/passwd`. */
  lemma SanitiseDropsClimbs(p: string)
    requires Clean(p) && p[0] != '/'
    ensures Sanitise("../" + p) == p
    ensures Sanitise("../../" + p) == p
  {
    var q, r := "../" + p, "../../" + p;
    assert RemoveTraversals(q) == p by {
      assert q[3..] == p;
      RemoveFront(q);
      RemoveNothing(p);
    }
    assert RemoveTraversals(r) == p by {
      assert r[3..] == q;
      RemoveFront(r);
    }
    assert Sanitise(q) == StripLeadingSlash(p) by {
      TrimPrefixed("../", p);
      SanitiseTrimmed(q);
    }
    assert Sanitise(r) == StripLeadingSlash(p) by {
      TrimPrefixed("../../", p);
      SanitiseTrimmed(r);
    }
  }

  /** The pass does not look again at what a deletion brings together: removing the `../`
      in the middle of `....//p` joins `..` and `/p` into `../p`, which is kept. */
  lemma RemoveTraversalsJoins(p: string)
    requires Clean(p) && p[0] != '/'
    ensures RemoveTraversals("....//" + p) == "../" + p
  {
    var s, t := "....//" + p, "/" + p;
    assert RemoveTraversals(t) == t by {
      NoTraversalCons('/', p);
      RemoveNothing(t);
    }
    assert RemoveTraversals(s[1..][1..]) == t by {
      assert s[1..][1..][3..] == t;
      RemoveFront(s[1..][1..]);
    }
    KeepFront(s);
    KeepFront(s[1..]);
    assert s[0] == '.' && s[1..][0] == '.';
  }

  /** So `....//p` comes out as `../p`, which still climbs out of the directory, and only a
      second pass gives `p`: the sanitiser is not idempotent. */
  lemma SanitiseNotIdempotent(p: string)
    requires Clean(p) && p[0] != '/'
    ensures Sanitise("....//" + p) == "../" + p
    ensures Sanitise(Sanitise("....//" + p)) == p != Sanitise("....//" + p)
  {
    var s := "....//" + p;
    assert Sanitise(s) == "../" + p by {
      RemoveTraversalsJoins(p);
      TrimPrefixed("....//", p);
      SanitiseTrimmed(s);
    }
    SanitiseDropsClimbs(p);
    assert |"../" + p| != |p|;
  }

  /** A leading `/` in front of a clean path is removed, and only that one: `/p` becomes
      `p`, and `//p` becomes `/p`. */
  lemma SanitiseOneSlash(q: string)
    requires Clean(q)
    ensures Sanitise("/" + q) == q
  {
    var t := "/" + q;
    assert RemoveTraversals(t) == t by {
      NoTraversalCons('/', q);
      RemoveNothing(t);
    }
    assert Sanitise(t) == StripLeadingSlash(t) by {
      TrimPrefixed("/", q);
      SanitiseTrimmed(t);
    }
    assert t[1..] == q;
  }

  /** So `//p` keeps one of its slashes. */
  lemma SanitiseTwoSlashes(p: string)
    requires Clean(p)
    ensures Sanitise("//" + p) == "/" + p
  {
    var t := "/" + p;
    assert Clean(t) by {
      NoTraversalCons('/', p);
      TrimPrefixed("/", p);
    }
    assert "/" + t == "//" + p;
    SanitiseOneSlash(t);
  }

  /** A bare `..`, with no separator after it, is no traversal for the pattern and is
      kept. */
  lemma SanitiseKeepsBareDotDot(d: string)
    requires d == ['.', '.']
    ensures Sanitise(d) == d
  {
    assert NoTraversal(d);
    TrimIdentity(d);
    SanitiseIdentity(d);
  }

  /** No traversal starts in a trailing `/..`. */
  lemma NoTraversalSnocDotDot(p: string, s: string)
    requires NoTraversal(p) && p != [] && p[|p| - 1] != '.'
    requires s == p + ['/', '.', '.']
    ensures NoTraversal(s)
  {
    forall i | 0 <= i < |s| ensures !TraversalAt(s, i) {
      if i + 3 <= |p| {
        assert s[i] == p[i] && s[i + 1] == p[i + 1] && s[i + 2] == p[i + 2];
        assert !TraversalAt(p, i);
      } else if i == |p| - 2 {
        assert s[i + 1] == p[|p| - 1];
      }
    }
  }

  /** So `..` as the last segment of a clean path is kept too: `a/..` passes unchanged. */
  lemma SanitiseKeepsLastDotDot(p: string, s: string)
    requires Clean(p) && p[0] != '/' && p[|p| - 1] != '.'
    requires s == p + ['/', '.', '.']
    ensures Sanitise(s) == s
  {
    NoTraversalSnocDotDot(p, s);
    TrimIdentity(p);
    assert s[0] == p[0] && s[|s| - 1] == '.';
    TrimIdentity(s);
    SanitiseIdentity(s);
  }

  // ---------------------------------------------------------------------------------
  // The snapshot `this.files`: an object used as a map, keys in insertion order

  /** The keys of the object in `Object.keys` order and what each maps to. */
  datatype FileTable = FileTable(names: seq<string>, contents: map<string, string>)

  /** The names are distinct and are exactly the keys of the map. */
  ghost predicate ValidTable(tab: FileTable)
  {
    && (forall i, j :: 0 <= i < j < |tab.names| ==> tab.names[i] != tab.names[j])
    && (forall k :: k in tab.contents <==> k in tab.names)
  }

  const EMPTY_TABLE := FileTable([], map[])

  /** The one key that an assignment to a plain object does not store: `this.files["__proto__"]
      = v` calls the prototype setter, which ignores a string, so no entry is made. */
  const PROTO_KEY := "__proto__"

  /** `this.files[k] = v`: a new key goes to the end of the order, an existing one keeps its
      place; `__proto__` changes nothing. */
  function Put(tab: FileTable, k: string, v: string): FileTable
  {
    if k == PROTO_KEY then tab
    else FileTable(if k in tab.contents then tab.names else tab.names + [k], tab.contents[k := v])
  }

  /** Writing a key keeps the table valid; an existing key keeps its place in the order and
      nothing else moves, a new key is appended; writing `__proto__` records nothing. */
  lemma PutValid(tab: FileTable, k: string, v: string)
    requires ValidTable(tab)
    ensures ValidTable(Put(tab, k, v))
    ensures k == PROTO_KEY ==> Put(tab, k, v) == tab
    ensures k != PROTO_KEY ==> k in Put(tab, k, v).contents && Put(tab, k, v).contents[k] == v
    ensures forall q :: q != k ==> (q in Put(tab, k, v).contents <==> q in tab.contents)
    ensures forall q :: q != k && q in tab.contents ==> Put(tab, k, v).contents[q] == tab.contents[q]
    ensures k in tab.names ==> Put(tab, k, v).names == tab.names
    ensures k != PROTO_KEY && k !in tab.names ==> Put(tab, k, v).names == tab.names + [k]
  {
    var r := Put(tab, k, v);
    if k != PROTO_KEY && k !in tab.names {
      forall i, j | 0 <= i < j < |r.names| ensures r.names[i] != r.names[j] {
        if j == |tab.names| {
          assert r.names[i] == tab.names[i];
        }
      }
    }
  }

  /** The writes of a reply, applied in order. */
  function PutAll(tab: FileTable, ws: seq<Block>): (r: FileTable)
    decreases |ws|
  {
    if ws == [] then tab else PutAll(Put(tab, ws[0].path, ws[0].content), ws[1..])
  }

  /** The paths of a sequence of writes. */
  function Paths(ws: seq<Block>): (ps: seq<string>)
    ensures |ps| == |ws|
  {
    if ws == [] then [] else [ws[0].path] + Paths(ws[1..])
  }

  /** The content of the last write to `k`, if any. */
  function LastWrite(ws: seq<Block>, k: string): (r: Option<string>)
    ensures r.None? <==> k !in Paths(ws)
    ensures r.Some? ==> Block(k, r.value) in ws
    decreases |ws|
  {
    if ws == [] then None
    else match LastWrite(ws[1..], k)
      case Some(c) => Some(c)
      case None => if ws[0].path == k then Some(ws[0].content) else None
  }

  /** A sequence of writes keeps the table valid; the names already there keep their
      places and the new ones follow them. */
  lemma {:induction false} PutAllValid(tab: FileTable, ws: seq<Block>)
    requires ValidTable(tab)
    ensures ValidTable(PutAll(tab, ws))
    ensures |tab.names| <= |PutAll(tab, ws).names|
    ensures PutAll(tab, ws).names[..|tab.names|] == tab.names
    decreases |ws|
  {
    if ws != [] {
      var t := Put(tab, ws[0].path, ws[0].content);
      PutValid(tab, ws[0].path, ws[0].content);
      PutAllValid(t, ws[1..]);
      assert t.names[..|tab.names|] == tab.names;
    }
  }

  /** After a sequence of writes the keys are the old ones and the written ones, except
      `__proto__`. */
  lemma {:induction false} PutAllKeys(tab: FileTable, ws: seq<Block>, k: string)
    ensures k in PutAll(tab, ws).contents <==> k in tab.contents || (k != PROTO_KEY && k in Paths(ws))
    decreases |ws|
  {
    if ws != [] {
      PutAllKeys(Put(tab, ws[0].path, ws[0].content), ws[1..], k);
      assert Paths(ws) == [ws[0].path] + Paths(ws[1..]);
    }
  }

  /** After a sequence of writes a key holds the content of its last write, or what it
      held before when no write touched it; `__proto__` is never touched. */
  lemma {:induction false} PutAllContents(tab: FileTable, ws: seq<Block>, k: string)
    requires k in tab.contents || (k != PROTO_KEY && k in Paths(ws))
    ensures k in PutAll(tab, ws).contents
    ensures PutAll(tab, ws).contents[k] ==
      if k == PROTO_KEY then tab.contents[k]
      else match LastWrite(ws, k) case Some(c) => c case None => tab.contents[k]
    decreases |ws|
  {
    PutAllKeys(tab, ws, k);
    if ws != [] {
      var t := Put(tab, ws[0].path, ws[0].content);
      assert Paths(ws) == [ws[0].path] + Paths(ws[1..]);
      PutAllContents(t, ws[1..], k);
    }
  }

  // ---------------------------------------------------------------------------------
  // `getContext()` and `listFiles()`

  /** The context the prompt builder receives. */
  datatype Context = Context(projectDir: string, files: seq<string>, fileContents: string)

  const MAX_CONTEXT_CHARS := 4000
  const TRUNCATION_NOTE := "\n...(truncated)"

  /** A long file keeps its first 4000 characters and a note. */
  function Truncate(c: string): (r: string)
  {
    if |c| > MAX_CONTEXT_CHARS then c[..MAX_CONTEXT_CHARS] + TRUNCATION_NOTE else c
  }

  /** What truncation keeps: a file of at most 4000 characters whole; a longer one its first
      4000 characters, then the note; so nothing longer than 4015 characters comes out. */
  lemma TruncateSpec(c: string)
    ensures |c| <= 4000 ==> Truncate(c) == c
    ensures |c| > 4000 ==> |Truncate(c)| == 4015 && Truncate(c)[..4000] == c[..4000]
    ensures |c| > 4000 ==> Truncate(c)[4000..] == TRUNCATION_NOTE
    ensures |Truncate(c)| <= 4015
  {
    if |c| > 4000 {
      assert Truncate(c)[4000..] == TRUNCATION_NOTE;
    }
  }

  /** Truncation leaves a file unchanged exactly when it is short enough, or when its
      characters after the 4000th are already the note; truncating twice truncates once. */
  lemma TruncateIdentity(c: string)
    ensures Truncate(c) == c <==> (|c| <= 4000 || c[4000..] == TRUNCATION_NOTE)
    ensures Truncate(Truncate(c)) == Truncate(c)
  {
    TruncateSpec(c);
    if |c| > 4000 {
      if c[4000..] == TRUNCATION_NOTE {
        assert c == c[..4000] + c[4000..];
      }
      var t := Truncate(c);
      TruncateSpec(t);
      assert t == t[..4000] + t[4000..];
    }
  }

  /** `### name\n```\n<content>\n```` */
  function RenderEntry(name: string, content: string): string
  {
    "### " + name + "\n```\n" + Truncate(content) + "\n```"
  }

  /** One rendered entry per name, in order. */
  function Entries(names: seq<string>, contents: map<string, string>): (es: seq<string>)
    requires forall i :: 0 <= i < |names| ==> names[i] in contents
    ensures |es| == |names|
    ensures forall i :: 0 <= i < |names| ==> es[i] == RenderEntry(names[i], contents[names[i]])
  {
    if names == [] then [] else [RenderEntry(names[0], contents[names[0]])] + Entries(names[1..], contents)
  }

  /** `getContext()` on a snapshot. */
  function ContextOf(dir: string, tab: FileTable): (r: Option<Context>)
    requires ValidTable(tab)
  {
    if |tab.names| == 0 then None
    else Some(Context(dir, tab.names, Join("\n\n", Entries(tab.names, tab.contents))))
  }

  /** There is no context exactly when nothing has been written; otherwise it lists the
      names in order and its file contents hold every file's rendered entry. */
  lemma ContextOfSpec(dir: string, tab: FileTable)
    requires ValidTable(tab)
    ensures ContextOf(dir, tab).None? <==> tab.contents == map[]
    ensures ContextOf(dir, tab).Some? ==> ContextOf(dir, tab).value.projectDir == dir
    ensures ContextOf(dir, tab).Some? ==> ContextOf(dir, tab).value.files == tab.names
    ensures ContextOf(dir, tab).Some? ==> forall k :: k in tab.contents ==>
      IsInfix(RenderEntry(k, tab.contents[k]), ContextOf(dir, tab).value.fileContents)
  {
    if |tab.names| == 0 {
      assert tab.contents.Keys == {};
    } else {
      assert tab.names[0] in tab.contents;
      var es := Entries(tab.names, tab.contents);
      forall k | k in tab.contents ensures IsInfix(RenderEntry(k, tab.contents[k]), Join("\n\n", es)) {
        var i :| 0 <= i < |tab.names| && tab.names[i] == k;
        JoinHasPiece("\n\n", es, i);
      }
    }
  }

  // ---------------------------------------------------------------------------------
  // `parseAndWrite()` as a function of the state it starts from

  /** `ensureDir()`: the first call creates the session directory; later calls do nothing. */
  function EnsureDirStep(created: bool, st: Store, dir: string): (r: FsStep)
  {
    if created then FsStep(st, None) else Mkdir(st, dir)
  }

  /** What one write does to the disk: the `created` flag, the disk and the error thrown,
      if any. */
  datatype StepResult = StepResult(created: bool, store: Store, error: Option<FsError>)

  /** One pass of the loop body on the disk, for a sanitised path: `ensureDir()`,
      `mkdirSync` of the parent of the target, and `writeFileSync` of the content without
      trailing whitespace and with one newline. */
  function WriteStep(dir: string, created: bool, st: Store, w: Block): (r: StepResult)
    ensures created ==> r.created
    ensures r.error.None? ==> r.created
  {
    var s1 := EnsureDirStep(created, st, dir);
    if s1.error.Some? then StepResult(created, s1.store, s1.error)
    else
      var full := JoinPath(dir, w.path);
      var s2 := Mkdir(s1.store, Dirname(full));
      if s2.error.Some? then StepResult(true, s2.store, s2.error)
      else
        var s3 := WriteFile(s2.store, full, TrimEnd(w.content) + "\n");
        StepResult(true, s3.store, s3.error)
  }

  /** One write only adds directories; it creates the session directory before it sets
      the flag; when it throws it leaves the files as they were, and otherwise it changes
      exactly the file at the joined path, to the content without trailing whitespace and
      with one newline. */
  lemma WriteStepSpec(dir: string, created: bool, st: Store, w: Block)
    ensures var r := WriteStep(dir, created, st, w);
      && r.store.dirs >= st.dirs
      && ((created ==> dir in st.dirs) ==> (r.created ==> dir in r.store.dirs))
      && (r.error.Some? ==> r.store.files == st.files)
      && (r.error.None? ==> var full := JoinPath(dir, w.path);
            && full in r.store.files && r.store.files[full] == TrimEnd(w.content) + "\n"
            && (forall f :: f != full ==> (f in r.store.files <==> f in st.files))
            && (forall f :: f != full && f in st.files ==> r.store.files[f] == st.files[f]))
  {
  }

  /** What `parseAndWrite` leaves behind: the snapshot, the `created` flag, the disk, the
      paths written so far and the error it threw, if any. */
  datatype Outcome = Outcome(table: FileTable, created: bool, store: Store, written: seq<string>, error: Option<FsError>)

  /** The writes a sequence of blocks asks for: each content under its sanitised path. */
  function SafeWrites(bs: seq<Block>): (ws: seq<Block>)
    ensures |ws| == |bs|
  {
    if bs == [] then [] else [Block(Sanitise(bs[0].path), bs[0].content)] + SafeWrites(bs[1..])
  }

  /** The loop of `parseAndWrite` over the sanitised writes in order; an error stops the
      loop and keeps the changes made before it. */
  function Run(dir: string, tab: FileTable, created: bool, st: Store, ws: seq<Block>, written: seq<string>): Outcome
    decreases |ws|
  {
    if ws == [] then Outcome(tab, created, st, written, None)
    else
      var s := WriteStep(dir, created, st, ws[0]);
      if s.error.Some? then Outcome(tab, s.created, s.store, written, s.error)
      else Run(dir, Put(tab, ws[0].path, ws[0].content), true, s.store, ws[1..], written + [ws[0].path])
  }

  /** The run completes some of the writes, and all of them when it throws nothing. */
  lemma {:induction false} RunLength(dir: string, tab: FileTable, created: bool, st: Store, ws: seq<Block>, written: seq<string>)
    ensures var o := Run(dir, tab, created, st, ws, written);
      && |written| <= |o.written| <= |written| + |ws|
      && (o.error.None? ==> |o.written| == |written| + |ws|)
    decreases |ws|
  {
    if ws != [] {
      var s := WriteStep(dir, created, st, ws[0]);
      if s.error.None? {
        RunLength(dir, Put(tab, ws[0].path, ws[0].content), true, s.store, ws[1..], written + [ws[0].path]);
      }
    }
  }

  /** The paths of the first `n` writes: the first one's, then those of the next `m`. */
  lemma PathsTake(ws: seq<Block>, n: nat, m: nat)
    requires 0 < n <= |ws| && n == m + 1
    ensures Paths(ws[..n]) == [ws[0].path] + Paths(ws[1..][..m])
  {
    var pre := ws[..n];
    assert pre[0] == ws[0] && pre[1..] == ws[1..][..m];
  }

  /** The first `n` writes applied in order: the first one, then the next `m`. */
  lemma PutAllTake(tab: FileTable, ws: seq<Block>, n: nat, m: nat)
    requires 0 < n <= |ws| && n == m + 1
    ensures PutAll(tab, ws[..n]) == PutAll(Put(tab, ws[0].path, ws[0].content), ws[1..][..m])
  {
    var pre := ws[..n];
    assert pre[0] == ws[0] && pre[1..] == ws[1..][..m];
  }

  /** The written list grows by the paths of the writes completed, in order. */
  lemma {:induction false} RunWritten(dir: string, tab: FileTable, created: bool, st: Store, ws: seq<Block>, written: seq<string>)
    ensures var o := Run(dir, tab, created, st, ws, written);
      |written| <= |o.written| <= |written| + |ws| &&
      o.written == written + Paths(ws[..|o.written| - |written|])
    decreases |ws|
  {
    RunLength(dir, tab, created, st, ws, written);
    var done := ws[..|Run(dir, tab, created, st, ws, written).written| - |written|];
    if ws == [] {
      assert done == [];
    } else {
      var s := WriteStep(dir, created, st, ws[0]);
      if s.error.None? {
        var w := ws[0];
        var o := Run(dir, Put(tab, w.path, w.content), true, s.store, ws[1..], written + [w.path]);
        assert Run(dir, tab, created, st, ws, written) == o;
        RunWritten(dir, Put(tab, w.path, w.content), true, s.store, ws[1..], written + [w.path]);
        PathsTake(ws, |o.written| - |written|, |o.written| - |written + [w.path]|);
        AppendAssoc(written, [w.path], Paths(ws[1..][..|o.written| - |written + [w.path]|]));
      } else {
        assert Run(dir, tab, created, st, ws, written).written == written;
        assert done == [];
      }
    }
  }

  /** The snapshot takes the contents of the writes completed, in order. */
  lemma {:induction false} RunTable(dir: string, tab: FileTable, created: bool, st: Store, ws: seq<Block>, written: seq<string>)
    ensures var o := Run(dir, tab, created, st, ws, written);
      |written| <= |o.written| <= |written| + |ws| &&
      o.table == PutAll(tab, ws[..|o.written| - |written|])
    decreases |ws|
  {
    RunLength(dir, tab, created, st, ws, written);
    var done := ws[..|Run(dir, tab, created, st, ws, written).written| - |written|];
    if ws == [] {
      assert done == [];
    } else {
      var s := WriteStep(dir, created, st, ws[0]);
      if s.error.None? {
        var w := ws[0];
        var o := Run(dir, Put(tab, w.path, w.content), true, s.store, ws[1..], written + [w.path]);
        assert Run(dir, tab, created, st, ws, written) == o;
        RunTable(dir, Put(tab, w.path, w.content), true, s.store, ws[1..], written + [w.path]);
        PutAllTake(tab, ws, |o.written| - |written|, |o.written| - |written + [w.path]|);
        var t := PutAll(Put(tab, w.path, w.content), ws[1..][..|o.written| - |written + [w.path]|]);
        assert o.table == t;
        assert PutAll(tab, done) == t;
        assert Run(dir, tab, created, st, ws, written).table == t;
      } else {
        assert Run(dir, tab, created, st, ws, written).written == written;
        assert done == [];
      }
    }
  }

  /** The disk files the run may change: the joined paths. */
  ghost function Targets(dir: string, ws: seq<Block>): set<string>
  {
    set w | w in ws :: JoinPath(dir, w.path)
  }

  /** The run only adds directories and never removes a file, and a file it changes or
      creates lies at the project directory joined with one of the paths. */
  lemma {:induction false} RunTouchesOnlyTargets(dir: string, tab: FileTable, created: bool, st: Store, ws: seq<Block>, written: seq<string>)
    ensures var o := Run(dir, tab, created, st, ws, written);
      && o.store.dirs >= st.dirs
      && (forall f :: f in st.files ==> f in o.store.files)
      && (forall f :: f !in Targets(dir, ws) ==>
            (f in o.store.files <==> f in st.files) && (f in st.files ==> o.store.files[f] == st.files[f]))
    decreases |ws|
  {
    if ws != [] {
      var w := ws[0];
      var s := WriteStep(dir, created, st, w);
      WriteStepSpec(dir, created, st, w);
      if s.error.None? {
        RunTouchesOnlyTargets(dir, Put(tab, w.path, w.content), true, s.store, ws[1..], written + [w.path]);
        assert w in ws;
        assert Targets(dir, ws[1..]) <= Targets(dir, ws) by {
          forall f | f in Targets(dir, ws[1..]) ensures f in Targets(dir, ws) {
            var v :| v in ws[1..] && f == JoinPath(dir, v.path);
            assert v in ws;
          }
        }
      }
    }
  }

  /** The snapshot holds no `__proto__` entry, and every entry is on disk, under the
      project directory, as `trimEnd() + "\n"` of its content. */
  ghost predicate Consistent(dir: string, tab: FileTable, st: Store)
  {
    && PROTO_KEY !in tab.contents
    && forall k :: k in tab.contents ==>
      JoinPath(dir, k) in st.files && st.files[JoinPath(dir, k)] == TrimEnd(tab.contents[k]) + "\n"
  }

  /** The run keeps the snapshot and the disk consistent, whether or not it throws. */
  lemma {:induction false} RunConsistent(dir: string, tab: FileTable, created: bool, st: Store, ws: seq<Block>, written: seq<string>)
    requires Consistent(dir, tab, st)
    ensures var o := Run(dir, tab, created, st, ws, written); Consistent(dir, o.table, o.store)
    decreases |ws|
  {
    if ws != [] {
      var w := ws[0];
      var s := WriteStep(dir, created, st, w);
      WriteStepSpec(dir, created, st, w);
      if s.error.None? {
        var full := JoinPath(dir, w.path);
        var tab' := Put(tab, w.path, w.content);
        forall k | k in tab'.contents
          ensures JoinPath(dir, k) in s.store.files && s.store.files[JoinPath(dir, k)] == TrimEnd(tab'.contents[k]) + "\n"
        {
          if k != w.path && JoinPath(dir, k) == full {
            JoinPathInjective(dir, k, w.path);
          }
        }
        RunConsistent(dir, tab', true, s.store, ws[1..], written + [w.path]);
      }
    }
  }

  /** Once the run has set `created` the session directory exists; a run that throws
      nothing over at least one write leaves `created` set, and so does one that wrote
      anything; a flag already set stays set; no writes change nothing. */
  lemma {:induction false} RunCreated(dir: string, tab: FileTable, created: bool, st: Store, ws: seq<Block>, written: seq<string>)
    requires created ==> dir in st.dirs
    ensures var o := Run(dir, tab, created, st, ws, written);
      && (o.created ==> dir in o.store.dirs)
      && (created ==> o.created)
      && (ws == [] ==> o == Outcome(tab, created, st, written, None))
      && (ws != [] && o.error.None? ==> o.created)
      && (|o.written| > |written| ==> o.created)
    decreases |ws|
  {
    if ws != [] {
      var w := ws[0];
      var s := WriteStep(dir, created, st, w);
      WriteStepSpec(dir, created, st, w);
      if s.error.None? {
        RunCreated(dir, Put(tab, w.path, w.content), true, s.store, ws[1..], written + [w.path]);
      }
    }
  }

  /** A block whose path sanitises to nothing (`../`, blanks) names the project directory
      itself, so writing it throws and nothing of it is recorded. */
  lemma EmptyPathThrows(dir: string, tab: FileTable, created: bool, st: Store, ws: seq<Block>, written: seq<string>)
    requires created ==> dir in st.dirs
    requires ws != [] && ws[0].path == []
    ensures var o := Run(dir, tab, created, st, ws, written);
      o.error.Some? && o.written == written && o.table == tab
  {
    var s1 := EnsureDirStep(created, st, dir);
    if s1.error.None? {
      assert dir in s1.store.dirs;
      assert JoinPath(dir, []) == dir;
    }
  }

  /** A path that ends in `/` names no file: after the directories are made, writing it
      throws, and nothing of it is recorded. */
  lemma TrailingSlashThrows(dir: string, tab: FileTable, created: bool, st: Store, ws: seq<Block>, written: seq<string>)
    requires ws != [] && EndsInSlash(ws[0].path)
    ensures var o := Run(dir, tab, created, st, ws, written);
      o.error.Some? && o.written == written && o.table == tab
  {
    var full := JoinPath(dir, ws[0].path);
    assert full[|full| - 1] == ws[0].path[|ws[0].path| - 1];
  }

  /** A block named `__proto__` is written to disk and reported as written, but the
      snapshot does not record it, so the next context does not show it. */
  lemma ProtoKeyNotRecorded(dir: string, tab: FileTable, created: bool, st: Store, ws: seq<Block>, written: seq<string>)
    requires ws != [] && ws[0].path == PROTO_KEY
    requires WriteStep(dir, created, st, ws[0]).error.None?
    ensures var s := WriteStep(dir, created, st, ws[0]);
      Run(dir, tab, created, st, ws, written) == Run(dir, tab, true, s.store, ws[1..], written + [PROTO_KEY])
  {
  }

  /** A reply without an end marker writes nothing: no path, no snapshot entry, no disk
      change, and the `created` flag stays as it was, so a first reply of plain prose
      creates no directory. */
  lemma NoEndMarkerWritesNothing(dir: string, tab: FileTable, created: bool, st: Store, text: string)
    requires forall j: nat :: !At(text, j, END_MARKER)
    ensures Run(dir, tab, created, st, SafeWrites(Blocks(text)), []) == Outcome(tab, created, st, [], None)
  {
    NoEndMarkerNoBlocks(text);
  }

  /** The writes of a reply are its blocks, in order, each under its sanitised path. */
  lemma {:induction false} SafeWritesSpec(bs: seq<Block>)
    ensures forall i :: 0 <= i < |bs| ==> SafeWrites(bs)[i] == Block(Sanitise(bs[i].path), bs[i].content)
    decreases |bs|
  {
    if bs != [] {
      SafeWritesSpec(bs[1..]);
      forall i | 0 < i < |bs| ensures SafeWrites(bs)[i] == Block(Sanitise(bs[i].path), bs[i].content) {
        assert SafeWrites(bs)[i] == SafeWrites(bs[1..])[i - 1];
      }
    }
  }

  /** A reply laid out as rendered blocks between texts without an opener is written block
      by block: when nothing throws, the written list is the sanitised paths of exactly
      those blocks, and the snapshot takes their contents. */
  lemma WrittenOfDocument(dir: string, tab: FileTable, created: bool, st: Store, bs: seq<Block>, seps: seq<string>)
    requires |seps| == |bs| + 1
    requires forall i :: 0 <= i < |bs| ==> Renderable(bs[i])
    requires forall i :: 0 <= i < |seps| ==> NoOpener(seps[i])
    ensures var o := Run(dir, tab, created, st, SafeWrites(Blocks(Document(bs, seps))), []);
      o.error.None? ==> o.written == Paths(SafeWrites(bs)) && o.table == PutAll(tab, SafeWrites(bs))
  {
    BlocksOfDocument(bs, seps);
    RunAll(dir, tab, created, st, SafeWrites(bs), []);
    assert [] + Paths(SafeWrites(bs)) == Paths(SafeWrites(bs));
  }

  /** A run that throws nothing completes every write: the written list takes all their
      paths and the snapshot all their contents. */
  lemma RunAll(dir: string, tab: FileTable, created: bool, st: Store, ws: seq<Block>, written: seq<string>)
    ensures var o := Run(dir, tab, created, st, ws, written);
      o.error.None? ==> o.written == written + Paths(ws) && o.table == PutAll(tab, ws)
  {
    var o := Run(dir, tab, created, st, ws, written);
    if o.error.None? {
      RunLength(dir, tab, created, st, ws, written);
      var n := |o.written| - |written|;
      assert n == |ws|;
      assert ws[..n] == ws;
      RunWritten(dir, tab, created, st, ws, written);
      RunTable(dir, tab, created, st, ws, written);
    }
  }

  /** One step of the run: the first write, then the rest. */
  lemma RunCons(dir: string, tab: FileTable, created: bool, st: Store, w: Block, ws: seq<Block>, written: seq<string>)
    ensures var s := WriteStep(dir, created, st, w);
      Run(dir, tab, created, st, [w] + ws, written) ==
        if s.error.Some? then Outcome(tab, s.created, s.store, written, s.error)
        else Run(dir, Put(tab, w.path, w.content), true, s.store, ws, written + [w.path])
  {
    assert ([w] + ws)[0] == w && ([w] + ws)[1..] == ws;
  }

  /** The writes left at a match: the matched block's, then those after it. */
  lemma SafeWritesAtMatch(t: string, p: nat, sp: Span, q: nat)
    requires p <= |t| && NextMatch(t, p) == Some(sp) && q == sp.endAt + 14
    ensures q <= |t|
    ensures var b := BlockOf(t, sp);
      SafeWrites(Scan(t, p)) == [Block(Sanitise(b.path), b.content)] + SafeWrites(Scan(t, q))
  {
    var bs := Scan(t, p);
    assert bs == [BlockOf(t, sp)] + Scan(t, sp.endAt + 14);
    assert bs[1..] == Scan(t, q);
  }

  /** The run over what is left of the reply at a match: the matched block's write, then
      the run over what follows the end marker. */
  lemma RunAtMatch(dir: string, tab: FileTable, created: bool, st: Store, t: string, p: nat, sp: Span, q: nat,
                   written: seq<string>)
    requires p <= |t| && NextMatch(t, p) == Some(sp) && q == sp.endAt + 14
    ensures q <= |t|
    ensures var b := BlockOf(t, sp);
      var w := Block(Sanitise(b.path), b.content);
      var s := WriteStep(dir, created, st, w);
      Run(dir, tab, created, st, SafeWrites(Scan(t, p)), written) ==
        if s.error.Some? then Outcome(tab, s.created, s.store, written, s.error)
        else Run(dir, Put(tab, w.path, w.content), true, s.store, SafeWrites(Scan(t, q)), written + [w.path])
  {
    var b := BlockOf(t, sp);
    var w := Block(Sanitise(b.path), b.content);
    SafeWritesAtMatch(t, p, sp, q);
    RunCons(dir, tab, created, st, w, SafeWrites(Scan(t, q)), written);
  }

  /** The loop of `parseAndWrite` keeps its invariant: what is left to do from the state
      after one block leads to the same outcome as before it. */
  lemma LoopStep(dir: string, tab: FileTable, created: bool, st: Store, t: string, p: nat, sp: Span, q: nat,
                 written: seq<string>, goal: Outcome)
    requires p <= |t| && NextMatch(t, p) == Some(sp) && q == sp.endAt + 14
    requires Run(dir, tab, created, st, SafeWrites(Scan(t, p)), written) == goal
    ensures q <= |t|
    ensures var b := BlockOf(t, sp);
      var w := Block(Sanitise(b.path), b.content);
      var s := WriteStep(dir, created, st, w);
      && (s.error.Some? ==> goal == Outcome(tab, s.created, s.store, written, s.error))
      && (s.error.None? ==>
            goal == Run(dir, Put(tab, w.path, w.content), true, s.store, SafeWrites(Scan(t, q)), written + [w.path]))
  {
    RunAtMatch(dir, tab, created, st, t, p, sp, q, written);
  }

  // ---------------------------------------------------------------------------------
  // The object

  /** The manager of one session: its directory, the snapshot of what it wrote, and
      whether it has created the directory yet. The disk is shared and passed in. */
  class FileManager {
    var projectDir: string
    var files: FileTable
    var created: bool

    ghost predicate Valid()
      reads this
    {
      ValidTable(files)
    }

    /** `new FileManager()`: `cwd/projects/project-YYYYMMDDHHMMSS` from the working
        directory and the clock, an empty snapshot, no directory yet. */
    constructor(cwd: string, now: Instant)
      requires ValidInstant(now)
      ensures projectDir == JoinPath(JoinPath(cwd, "projects"), ProjectDirName(now))
      ensures files == EMPTY_TABLE && !created
      ensures Valid()
    {
      projectDir := JoinPath(JoinPath(cwd, "projects"), ProjectDirName(now));
      files := EMPTY_TABLE;
      created := false;
    }

    /** `ensureDir()`: the flag is set only after `mkdirSync` returns. */
    method EnsureDir(disk: FileSystem) returns (e: Option<FsError>)
      modifies this, disk
      ensures FsStep(disk.Contents(), e) == EnsureDirStep(old(created), old(disk.Contents()), projectDir)
      ensures created == (old(created) || e.None?)
      ensures files == old(files) && projectDir == old(projectDir)
    {
      if !created {
        e := disk.MakeDir(projectDir);
        if e.None? {
          created := true;
        }
      } else {
        e := None;
      }
    }

    /** The disk part of one pass of the loop of `parseAndWrite`, for a sanitised path. */
    method WriteOne(w: Block, disk: FileSystem) returns (e: Option<FsError>)
      modifies this, disk
      ensures StepResult(created, disk.Contents(), e) == WriteStep(projectDir, old(created), old(disk.Contents()), w)
      ensures files == old(files) && projectDir == old(projectDir)
    {
      e := EnsureDir(disk);
      if e.Some? {
        return;
      }
      var full := JoinPath(projectDir, w.path);
      e := disk.MakeDir(Dirname(full));
      if e.Some? {
        return;
      }
      e := disk.Write(full, TrimEnd(w.content) + "\n");
    }

    /** One pass of the loop of `parseAndWrite`: the match's path is sanitised, the file
        written and, when nothing throws, recorded in the snapshot. */
    method WriteMatch(text: string, sp: Span, disk: FileSystem) returns (e: Option<FsError>, w: Block)
      requires sp.pathStart <= sp.pathEnd && sp.pathEnd + 4 <= sp.endAt <= |text|
      requires Valid()
      modifies this, disk
      ensures w == Block(Sanitise(BlockOf(text, sp).path), BlockOf(text, sp).content)
      ensures StepResult(created, disk.Contents(), e) == WriteStep(projectDir, old(created), old(disk.Contents()), w)
      ensures files == if e.None? then Put(old(files), w.path, w.content) else old(files)
      ensures Valid() && projectDir == old(projectDir)
    {
      var b := BlockOf(text, sp);
      w := Block(Sanitise(b.path), b.content);
      e := WriteOne(w, disk);
      if e.None? {
        PutValid(files, w.path, w.content);
        files := Put(files, w.path, w.content);
      }
    }

    /** `parseAndWrite(responseText)`: every match of the pattern, in order, is written
        under its sanitised path and recorded; the first error is thrown, with the changes
        before it kept. */
    method ParseAndWrite(text: string, disk: FileSystem) returns (r: Result<seq<string>, FsError>)
      requires Valid()
      modifies this, disk
      ensures Valid() && projectDir == old(projectDir)
      ensures var o := Run(projectDir, old(files), old(created), old(disk.Contents()), SafeWrites(Blocks(text)), []);
        && files == o.table && created == o.created && disk.Contents() == o.store
        && r == (if o.error.None? then Ok(o.written) else Err(o.error.value))
    {
      ghost var goal := Run(projectDir, files, created, disk.Contents(), SafeWrites(Blocks(text)), []);
      var written: seq<string> := [];
      var last := 0;
      while NextMatch(text, last).Some?
        invariant last <= |text|
        invariant Valid() && projectDir == old(projectDir)
        invariant Run(projectDir, files, created, disk.Contents(), SafeWrites(Scan(text, last)), written) == goal
        decreases |text| - last
      {
        var sp := NextMatch(text, last).value;
        var next := sp.endAt + 14;
        ghost var files0, created0, store0 := files, created, disk.Contents();
        LoopStep(projectDir, files0, created0, store0, text, last, sp, next, written, goal);
        var e, w := WriteMatch(text, sp, disk);
        ghost var step := WriteStep(projectDir, created0, store0, w);
        assert step == StepResult(created, disk.Contents(), e);
        if e.Some? {
          return Err(e.value);
        }
        written, last := written + [w.path], next;
      }
      return Ok(written);
    }

    /** `getContext()`: nothing before the first file; otherwise the directory, the names
        in insertion order and every file rendered. */
    function GetContext(): (r: Option<Context>)
      reads this
      requires Valid()
      ensures r.None? <==> files.contents == map[]
      ensures r.Some? ==> r.value.projectDir == projectDir && r.value.files == files.names
    {
      ContextOfSpec(projectDir, files);
      ContextOf(projectDir, files)
    }

    /** `listFiles()`: the names written so far, each once, in insertion order. */
    function ListFiles(): (r: seq<string>)
      reads this
      requires Valid()
      ensures forall k :: k in r <==> k in files.contents
      ensures forall i, j :: 0 <= i < j < |r| ==> r[i] != r[j]
    {
      files.names
    }
  }
}
