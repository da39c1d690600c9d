/** The chat session: `loadEnv`, the API-key check, the conversation history, one
    streamed round trip to the model followed by the writes its reply asks for, and
    `reset`. The `.env` text, the process environment, the working directory, the clock
    and the model API are parameters. */
module Chat {

  import opened Wrappers
  import opened Text
  import opened Disk
  import opened Timestamps
  import FileBlocks
  import FM = FileManager
  import Prompts

  // ---------------------------------------------------------------------------------
  // `loadEnv()`

  /** What one line of `.env` asks for. */
  datatype EnvLine = Ignored | Setting(key: string, value: string)

  predicate IsQuote(c: char)
  {
    c == '"' || c == '\''
  }

  /** `v.replace(/^["']|["']$/g, "")`: a quote at the start and a quote at the end are
      removed, each at most once and independently of each other. */
  function StripQuotes(v: string): (r: string)
    ensures |r| <= |v| <= |r| + 2
    ensures var a := if v != [] && IsQuote(v[0]) then 1 else 0; a + |r| <= |v| && r == v[a..a + |r|]
  {
    var u := if v != [] && IsQuote(v[0]) then v[1..] else v;
    if u != [] && IsQuote(u[|u| - 1]) then u[..|u| - 1] else u
  }

  /** A value is left alone exactly when it neither starts nor ends with a quote. */
  lemma StripQuotesIdentity(v: string)
    ensures StripQuotes(v) == v <==> (v == [] || (!IsQuote(v[0]) && !IsQuote(v[|v| - 1])))
  {
  }

  /** Any two quotes around any text are removed: they need not match, and whitespace
      inside them stays, since nothing trims again. */
  lemma StripQuotesBoth(q1: char, x: string, q2: char)
    requires IsQuote(q1) && IsQuote(q2)
    ensures StripQuotes([q1] + x + [q2]) == x
  {
    var v := [q1] + x + [q2];
    assert v[1..] == x + [q2];
    assert (x + [q2])[..|x|] == x;
  }

  /** Only one quote is removed at each end. */
  lemma StripQuotesOnce(q1: char, q2: char, x: string)
    requires IsQuote(q1) && IsQuote(q2) && x != [] && !IsQuote(x[|x| - 1])
    ensures StripQuotes([q1, q2] + x) == [q2] + x
  {
    assert ([q1, q2] + x)[1..] == [q2] + x;
  }

  /** Trimming keeps only characters of the original. */
  lemma TrimKeeps(s: string, c: char)
    requires c !in s
    ensures c !in Trim(s)
  {
    var u := TrimStart(s);
    assert u == s[|s| - |u|..];
    assert Trim(s) == u[..|Trim(s)|];
  }

  /** One line of `.env`: blank lines, comments and lines without `=` are skipped; any
      other line is split at its first `=`, and the two sides are trimmed and the value
      unquoted. */
  function ParseEnvLine(line: string): (r: EnvLine)
    ensures r.Setting? ==> '=' !in r.key
  {
    var t := Trim(line);
    if t == [] || t[0] == '#' then Ignored
    else
      match IndexOf(t, '=')
      case None => Ignored
      case Some(i) =>
        TrimKeeps(t[..i], '=');
        Setting(Trim(t[..i]), StripQuotes(Trim(t[i + 1..])))
  }

  /** A line is skipped exactly when, trimmed, it is blank, a comment or has no `=`; a
      setting comes from the text on either side of the first `=`. */
  lemma ParseEnvLineSpec(line: string)
    ensures var t := Trim(line);
      ParseEnvLine(line).Ignored? <==> (t == [] || t[0] == '#' || '=' !in t)
    ensures var t := Trim(line); var r := ParseEnvLine(line);
      r.Setting? ==> (exists i :: 0 <= i < |t| && t[i] == '=' && '=' !in t[..i]
                                && r.key == Trim(t[..i]) && r.value == StripQuotes(Trim(t[i + 1..])))
  {
    var t := Trim(line);
    if ParseEnvLine(line).Setting? {
      var i := IndexOf(t, '=').value;
      assert 0 <= i < |t| && t[i] == '=' && '=' !in t[..i];
    }
  }

  /** A trimmed line that is not a comment and whose first `=` is at `i` is the setting
      of the text on either side of it. */
  lemma ParseEnvLineAt(line: string, i: nat)
    requires line != [] && Trim(line) == line && line[0] != '#'
    requires IndexOf(line, '=') == Some(i)
    ensures ParseEnvLine(line) == Setting(Trim(line[..i]), StripQuotes(Trim(line[i + 1..])))
  {
  }

  /** `key=value` with a clean key and value reads back as that setting. */
  lemma ParseSetting(k: string, v: string)
    requires k != [] && Trim(k) == k && k[0] != '#' && '=' !in k
    requires Trim(v) == v && StripQuotes(v) == v
    ensures ParseEnvLine(k + "=" + v) == Setting(k, v)
  {
    var s := k + "=" + v;
    assert s[0] == k[0];
    KeyValueTrimmed(k, v);
    KeyValueSplitsAtEq(k, v);
    assert s[..|k|] == k;
    assert s[|k| + 1..] == v;
    ParseEnvLineAt(s, |k|);
  }

  /** `key=value` with both sides trimmed is trimmed. */
  lemma KeyValueTrimmed(k: string, v: string)
    requires k != [] && Trim(k) == k && Trim(v) == v
    ensures Trim(k + "=" + v) == k + "=" + v
  {
    var s := k + "=" + v;
    assert s[0] == k[0];
    assert s[|s| - 1] == if v == [] then '=' else v[|v| - 1];
    TrimIdentity(v);
    TrimIdentity(k);
    TrimIdentity(s);
  }

  /** The first `=` of `key=value` is the one after the key when the key has none. */
  lemma KeyValueSplitsAtEq(k: string, v: string)
    requires '=' !in k
    ensures IndexOf(k + "=" + v, '=') == Some(|k|)
  {
    var s := k + "=" + v;
    assert s[|k|] == '=';
    assert s[..|k|] == k;
    IndexOfIs(s, '=', |k|);
  }

  /** `if (!process.env[key]) process.env[key] = val`: a variable that is missing or
      empty is set; any other is kept. */
  function Assign(env: map<string, string>, l: EnvLine): (r: map<string, string>)
    ensures l.Setting? && (l.key !in env || env[l.key] == "") ==> r == env[l.key := l.value]
    ensures l.Ignored? || (l.key in env && env[l.key] != "") ==> r == env
  {
    match l
    case Ignored => env
    case Setting(k, v) => if k !in env || env[k] == "" then env[k := v] else env
  }

  /** The lines, each parsed on its own. */
  function ParseLines(ls: seq<string>): seq<EnvLine>
  {
    seq(|ls|, i requires 0 <= i < |ls| => ParseEnvLine(ls[i]))
  }

  /** The environment after the parsed lines, taken in order. */
  function ApplySettings(env: map<string, string>, ss: seq<EnvLine>): map<string, string>
    decreases |ss|
  {
    if ss == [] then env else Assign(ApplySettings(env, ss[..|ss| - 1]), ss[|ss| - 1])
  }

  /** Lines are taken one after the other: loading `a + b` loads `a`, then `b`. */
  lemma {:induction false} ApplySettingsAppend(env: map<string, string>, a: seq<EnvLine>, b: seq<EnvLine>)
    ensures ApplySettings(env, a + b) == ApplySettings(ApplySettings(env, a), b)
    decreases |b|
  {
    if b == [] {
      assert a + b == a;
    } else {
      assert (a + b)[..|a + b| - 1] == a + b[..|b| - 1];
      ApplySettingsAppend(env, a, b[..|b| - 1]);
    }
  }

  /** A variable with a non-empty value is never overwritten. */
  lemma {:induction false} ApplySettingsKeepsSet(env: map<string, string>, ss: seq<EnvLine>, k: string)
    requires k in env && env[k] != ""
    ensures k in ApplySettings(env, ss) && ApplySettings(env, ss)[k] == env[k]
    decreases |ss|
  {
    if ss != [] {
      ApplySettingsKeepsSet(env, ss[..|ss| - 1], k);
    }
  }

  /** Loading never removes a variable, and every variable it sets or changes takes the
      value of one of the lines. */
  lemma {:induction false} ApplySettingsSources(env: map<string, string>, ss: seq<EnvLine>)
    ensures env.Keys <= ApplySettings(env, ss).Keys
    ensures var r := ApplySettings(env, ss);
      forall k :: k in r ==>
        || (k in env && r[k] == env[k])
        || (exists i :: 0 <= i < |ss| && ss[i] == Setting(k, r[k]))
    decreases |ss|
  {
    if ss != [] {
      var front, last := ss[..|ss| - 1], ss[|ss| - 1];
      ApplySettingsSources(env, front);
      var p, r := ApplySettings(env, front), ApplySettings(env, ss);
      assert r == Assign(p, last);
      forall k | k in r
        ensures || (k in env && r[k] == env[k])
                || (exists i :: 0 <= i < |ss| && ss[i] == Setting(k, r[k]))
      {
        if last.Setting? && last.key == k && (k !in p || p[k] == "") {
          assert ss[|ss| - 1] == Setting(k, r[k]);
        } else if !(k in env && r[k] == env[k]) {
          var i :| 0 <= i < |front| && front[i] == Setting(k, p[k]);
          assert ss[i] == front[i];
        }
      }
    }
  }

  /** The first setting of a missing or empty variable to a non-empty value wins: an empty
      value is overwritten, and later lines for the same key are ignored. */
  lemma FirstSettingWins(env: map<string, string>, a: seq<EnvLine>, k: string, v: string, b: seq<EnvLine>)
    requires v != ""
    requires var e := ApplySettings(env, a); k !in e || e[k] == ""
    ensures var r := ApplySettings(env, a + [Setting(k, v)] + b); k in r && r[k] == v
  {
    var a1 := a + [Setting(k, v)];
    ApplySettingsAppend(env, a1, b);
    assert a1[..|a1| - 1] == a;
    ApplySettingsKeepsSet(ApplySettings(env, a1), b, k);
  }

  /** Loading one more line applies that line to what the lines before it left. */
  lemma ApplyNextLine(env: map<string, string>, ls: seq<string>, i: nat)
    requires i < |ls|
    ensures ApplySettings(env, ParseLines(ls[..i + 1]))
      == Assign(ApplySettings(env, ParseLines(ls[..i])), ParseEnvLine(ls[i]))
  {
    var a, b := ParseLines(ls[..i + 1]), ParseLines(ls[..i]);
    assert a[..|a| - 1] == b;
    assert a[|a| - 1] == ParseEnvLine(ls[i]);
  }

  /** The environment after `loadEnv`: unchanged without a `.env` file, otherwise the
      lines of its text applied in order. */
  function LoadedEnv(env: map<string, string>, dotenv: Option<string>): map<string, string>
  {
    match dotenv
    case None => env
    case Some(text) => ApplySettings(env, ParseLines(Split(text, '\n')))
  }

  /** The process environment as the object `loadEnv` assigns into. */
  class Environment {
    var vars: map<string, string>

    constructor(vars0: map<string, string>)
      ensures vars == vars0
    {
      vars := vars0;
    }

    /** The body of the loop of `loadEnv()` for one line: a setting is assigned only when
        the variable is missing or empty. */
    method LoadLine(line: string)
      modifies this
      ensures vars == Assign(old(vars), ParseEnvLine(line))
    {
      var l := ParseEnvLine(line);
      match l {
        case Ignored =>
        case Setting(k, v) =>
          if k !in vars || vars[k] == "" {
            vars := vars[k := v];
          }
      }
    }

    /** `loadEnv()`, with the content of `.env` (if the file exists) as a parameter. */
    method LoadEnv(dotenv: Option<string>)
      modifies this
      ensures vars == LoadedEnv(old(vars), dotenv)
    {
      if dotenv.None? {
        return;
      }
      var lines := Split(dotenv.value, '\n');
      var i := 0;
      while i < |lines|
        invariant 0 <= i <= |lines|
        invariant vars == ApplySettings(old(vars), ParseLines(lines[..i]))
      {
        ApplyNextLine(old(vars), lines, i);
        LoadLine(lines[i]);
        i := i + 1;
      }
      assert lines[..i] == lines;
    }
  }

  // ---------------------------------------------------------------------------------
  // The API key

  const API_KEY_VAR := "OPENAI_API_KEY"
  const PLACEHOLDER_KEY := "your_api_key_here"

  /** The key the session runs with: none when `OPENAI_API_KEY` is unset, empty, or still
      the placeholder of the sample `.env`. */
  function ApiKey(env: map<string, string>): (r: Option<string>)
    ensures r.Some? ==> API_KEY_VAR in env && r.value == env[API_KEY_VAR]
    ensures r.Some? <==> API_KEY_VAR in env && env[API_KEY_VAR] !in {"", PLACEHOLDER_KEY}
  {
    if API_KEY_VAR in env && env[API_KEY_VAR] != "" && env[API_KEY_VAR] != PLACEHOLDER_KEY
    then Some(env[API_KEY_VAR]) else None
  }

  /** A key already in the environment is the one the session uses, whatever `.env` says. */
  lemma KeyFromEnvironmentWins(env: map<string, string>, dotenv: Option<string>)
    requires ApiKey(env).Some?
    ensures ApiKey(LoadedEnv(env, dotenv)) == ApiKey(env)
  {
    if dotenv.Some? {
      ApplySettingsKeepsSet(env, ParseLines(Split(dotenv.value, '\n')), API_KEY_VAR);
    }
  }

  /** The key's name is a clean `.env` key: no blanks around it, no `#` in front, no `=`
      and no line break in it. */
  lemma ApiKeyVarClean(k: string)
    requires k == API_KEY_VAR
    ensures k != [] && !IsSpace(k[0]) && !IsSpace(k[|k| - 1]) && k[0] != '#' && '=' !in k && '\n' !in k
  {
    assert k != [] && k[0] == 'O' && k[|k| - 1] == 'Y' by {
      ApiKeyVarEnds(k);
    }
    assert '=' !in k && '\n' !in k by {
      ApiKeyVarPlain(k);
    }
  }

  /** The variable name's first and last characters. */
  lemma ApiKeyVarEnds(k: string)
    requires k == API_KEY_VAR
    ensures k != [] && k[0] == 'O' && k[|k| - 1] == 'Y'
  {
  }

  /** The variable name has no `=` and no line break. */
  lemma ApiKeyVarPlain(k: string)
    requires k == API_KEY_VAR
    ensures '=' !in k && '\n' !in k
  {
    forall i | 0 <= i < |k| ensures k[i] != '=' && k[i] != '\n' { }
  }

  /** A value `loadEnv` keeps as written: one line, with no blank and no quote at either
      end. */
  predicate PlainValue(v: string)
  {
    && '\n' !in v
    && (v == [] || (!IsSpace(v[0]) && !IsSpace(v[|v| - 1]) && !IsQuote(v[0]) && !IsQuote(v[|v| - 1])))
  }

  /** Trimming and unquoting leave a plain value as it is. */
  lemma PlainValueKept(v: string)
    requires PlainValue(v)
    ensures Trim(v) == v && StripQuotes(v) == v
  {
    TrimIdentity(v);
    StripQuotesIdentity(v);
  }

  /** Text with no line break on either side of `=` has none. */
  lemma OneLine(k: string, v: string)
    requires '\n' !in k && '\n' !in v
    ensures '\n' !in k + "=" + v
  {
    var text := k + "=" + v;
    forall i | 0 <= i < |text| ensures text[i] != '\n' {
      if i < |k| { assert text[i] == k[i]; }
      else if i > |k| { assert text[i] == v[i - |k| - 1]; }
    }
  }

  /** Text without a line break is a single line. */
  lemma SplitOneLine(text: string)
    requires '\n' !in text
    ensures Split(text, '\n') == [text]
  {
    SplitJoin([text], '\n');
    assert Join("\n", [text]) == text;
  }

  /** A `.env` of the single line `k=v` sets a missing or empty `k` to `v`. */
  lemma SingleLineEnv(env: map<string, string>, text: string, k: string, v: string)
    requires k != [] && !IsSpace(k[0]) && !IsSpace(k[|k| - 1]) && k[0] != '#' && '=' !in k && '\n' !in k
    requires PlainValue(v)
    requires text == k + "=" + v
    requires k !in env || env[k] == ""
    ensures k in LoadedEnv(env, Some(text)) && LoadedEnv(env, Some(text))[k] == v
  {
    var ls := ParseLines(Split(text, '\n'));
    assert |ls| == 1 && ls[0] == Setting(k, v) by {
      TrimIdentity(k);
      PlainValueKept(v);
      ParseSetting(k, v);
      OneLine(k, v);
      SplitOneLine(text);
    }
    ApplyOne(env, ls, k, v);
  }

  /** A single parsed line that sets a missing or empty variable sets it. */
  lemma ApplyOne(env: map<string, string>, ls: seq<EnvLine>, k: string, v: string)
    requires |ls| == 1 && ls[0] == Setting(k, v)
    requires k !in env || env[k] == ""
    ensures k in ApplySettings(env, ls) && ApplySettings(env, ls)[k] == v
  {
    assert ls[..0] == [];
  }

  /** With the variable unset or empty, a `.env` of the one line `OPENAI_API_KEY=v` decides
      the key: the session gets `v`, unless `v` is empty or still the placeholder, when
      there is no key and `new ChatSession()` exits. */
  lemma DotenvKey(env: map<string, string>, k: string, v: string)
    requires k == API_KEY_VAR
    requires k !in env || env[k] == ""
    requires PlainValue(v)
    ensures ApiKey(LoadedEnv(env, Some(k + "=" + v))) == if v == "" || v == PLACEHOLDER_KEY then None else Some(v)
  {
    KeyLine(env, k, v);
    ApiKeyOf(LoadedEnv(env, Some(k + "=" + v)), v);
  }

  /** The line `OPENAI_API_KEY=v` sets the variable when it is unset or empty. */
  lemma KeyLine(env: map<string, string>, k: string, v: string)
    requires k == API_KEY_VAR
    requires k !in env || env[k] == ""
    requires PlainValue(v)
    ensures k in LoadedEnv(env, Some(k + "=" + v)) && LoadedEnv(env, Some(k + "=" + v))[k] == v
  {
    ApiKeyVarClean(k);
    SingleLineEnv(env, k + "=" + v, k, v);
  }

  /** The key read from an environment whose variable holds `v`. */
  lemma ApiKeyOf(e: map<string, string>, v: string)
    requires API_KEY_VAR in e && e[API_KEY_VAR] == v
    ensures ApiKey(e) == if v == "" || v == PLACEHOLDER_KEY then None else Some(v)
  {
  }

  /** The placeholder is a plain `.env` value. */
  lemma PlaceholderPlain(v: string)
    requires v == PLACEHOLDER_KEY
    ensures PlainValue(v)
  {
    PlaceholderEnds(v);
    PlaceholderOneLine(v);
  }

  /** The placeholder's first and last characters. */
  lemma PlaceholderEnds(v: string)
    requires v == PLACEHOLDER_KEY
    ensures v != [] && v[0] == 'y' && v[|v| - 1] == 'e'
  {
  }

  /** The placeholder has no line break. */
  lemma PlaceholderOneLine(v: string)
    requires v == PLACEHOLDER_KEY
    ensures '\n' !in v
  {
    forall i | 0 <= i < |v| ensures v[i] != '\n' { }
  }

  /** The sample `.env`, `OPENAI_API_KEY=your_api_key_here`, gives no key when the variable
      is not already set, so `new ChatSession()` exits. */
  lemma SampleDotenvHasNoKey(env: map<string, string>, k: string, v: string)
    requires k == API_KEY_VAR && v == PLACEHOLDER_KEY
    requires k !in env || env[k] == ""
    ensures ApiKey(LoadedEnv(env, Some(k + "=" + v))).None?
  {
    assert PlainValue(v) by {
      PlaceholderPlain(v);
    }
    DotenvKey(env, k, v);
  }

  // ---------------------------------------------------------------------------------
  // `ChatSession`

  datatype Role = System | User | Assistant

  /** `{ role, content }`. */
  datatype Message = Message(role: Role, content: string)

  const MODEL := "gpt-5-nano"
  const MAX_TOKENS := 8192

  /** The arguments of `chat.completions.create`. */
  datatype Request = Request(model: string, maxTokens: nat, stream: bool, messages: seq<Message>)

  /** What the stream delivers: `chunk.choices[0]?.delta?.content` of each chunk (`None`
      when that is missing or null), and whether the call or the iteration threw before
      the stream ended. */
  datatype Stream = Stream(chunks: seq<Option<string>>, failed: bool)

  /** `content || ""`. */
  function ChunkText(c: Option<string>): string
  {
    match c
    case None => ""
    case Some(t) => t
  }

  /** The reply: the chunk texts, in order. */
  function Reply(cs: seq<Option<string>>): string
    decreases |cs|
  {
    if cs == [] then "" else Reply(cs[..|cs| - 1]) + ChunkText(cs[|cs| - 1])
  }

  /** The reply to two runs of chunks is the reply to the first followed by the reply to
      the second. */
  lemma {:induction false} ReplyAppend(a: seq<Option<string>>, b: seq<Option<string>>)
    ensures Reply(a + b) == Reply(a) + Reply(b)
    decreases |b|
  {
    if b == [] {
      assert a + b == a;
    } else {
      assert (a + b)[..|a + b| - 1] == a + b[..|b| - 1];
      ReplyAppend(a, b[..|b| - 1]);
    }
  }

  /** A chunk without text, or with empty text, adds nothing to the reply. */
  lemma ReplySkipsEmpty(a: seq<Option<string>>, c: Option<string>, b: seq<Option<string>>)
    requires ChunkText(c) == ""
    ensures Reply(a + [c] + b) == Reply(a + b)
  {
    ReplyAppend(a + [c], b);
    ReplyAppend(a, b);
    assert (a + [c])[..|a|] == a;
  }

  /** The `for await` loop of `chat`: the text of each chunk that has any is appended to
      the reply. */
  method CollectReply(chunks: seq<Option<string>>) returns (fullResponse: string)
    ensures fullResponse == Reply(chunks)
  {
    fullResponse := "";
    var i := 0;
    while i < |chunks|
      invariant 0 <= i <= |chunks|
      invariant fullResponse == Reply(chunks[..i])
    {
      assert chunks[..i + 1][..i] == chunks[..i];
      var text := ChunkText(chunks[i]);
      if text != "" {
        fullResponse := fullResponse + text;
      }
      i := i + 1;
    }
    assert chunks[..i] == chunks;
  }

  /** Why `chat` throws: the model API failed, or a file write did. */
  datatype ChatError = ApiFailed | WriteFailed(error: FsError)

  /** The state of one session. `apiKey` stands for the client built from it. */
  class ChatSession {
    var apiKey: string
    var history: seq<Message>
    var fileManager: FM.FileManager
    var model: string

    ghost predicate Valid()
      reads this, fileManager
    {
      fileManager.Valid()
    }

    /** The fields the constructor sets once the key has passed the check. */
    constructor(key: string, cwd: string, now: Instant)
      requires ValidInstant(now)
      ensures apiKey == key && history == [] && model == MODEL
      ensures fileManager.files == FM.EMPTY_TABLE && !fileManager.created
      ensures fileManager.projectDir == JoinPath(JoinPath(cwd, "projects"), ProjectDirName(now))
      ensures fresh(fileManager) && Valid()
    {
      apiKey := key;
      history := [];
      fileManager := new FM.FileManager(cwd, now);
      model := MODEL;
    }

    /** The request `chat(message)` sends: the system prompt built from the current files,
        then the history including the new user turn. */
    function RequestFor(message: string): (req: Request)
      reads this, fileManager
      requires Valid()
      ensures req.model == model && req.maxTokens == MAX_TOKENS && req.stream
      ensures |req.messages| == |history| + 2
      ensures req.messages[0] == Message(System, Prompts.BuildSystemPrompt(fileManager.GetContext()))
      ensures req.messages[1..] == history + [Message(User, message)]
    {
      var prompt := Prompts.BuildSystemPrompt(fileManager.GetContext());
      var msgs := [Message(System, prompt)] + (history + [Message(User, message)]);
      assert msgs[1..] == history + [Message(User, message)];
      Request(model, MAX_TOKENS, true, msgs)
    }

    /** `chat(message)`: the user turn is recorded, the reply is streamed, recorded as
        the assistant turn and its files written. The source returns nothing and prints
        the saved files; `Ok` carries that list of paths instead. When the model API
        fails, the history ends with the user turn and nothing else changes. */
    method Chat(message: string, api: Request -> Stream, disk: FileSystem) returns (r: Result<seq<string>, ChatError>)
      requires Valid()
      modifies this, fileManager, disk
      ensures Valid() && fileManager == old(fileManager) && apiKey == old(apiKey) && model == old(model)
      ensures fileManager.projectDir == old(fileManager.projectDir)
      ensures var s := api(old(RequestFor(message)));
        if s.failed then
          && history == old(history) + [Message(User, message)]
          && fileManager.files == old(fileManager.files) && fileManager.created == old(fileManager.created)
          && disk.Contents() == old(disk.Contents())
          && r == Err(ApiFailed)
        else
          var o := FM.Run(fileManager.projectDir, old(fileManager.files), old(fileManager.created),
            old(disk.Contents()), FM.SafeWrites(FileBlocks.Blocks(Reply(s.chunks))), []);
          && history == old(history) + [Message(User, message), Message(Assistant, Reply(s.chunks))]
          && fileManager.files == o.table && fileManager.created == o.created && disk.Contents() == o.store
          && r == if o.error.None? then Ok(o.written) else Err(WriteFailed(o.error.value))
    {
      ghost var req := RequestFor(message);
      ghost var ctx := fileManager.GetContext();
      history := history + [Message(User, message)];
      var context := fileManager.GetContext();
      assert context == ctx;
      var prompt := Prompts.BuildSystemPrompt(context);
      var stream := api(Request(model, MAX_TOKENS, true, [Message(System, prompt)] + history));
      assert stream == api(req);
      r := Respond(stream, disk);
    }

    /** The rest of `chat(message)` once the request is sent: the stream is read to its
        end; a failed call throws with nothing else changed, otherwise the reply becomes
        the assistant turn and its files are written. */
    method Respond(stream: Stream, disk: FileSystem) returns (r: Result<seq<string>, ChatError>)
      requires Valid()
      modifies this, fileManager, disk
      ensures Valid() && fileManager == old(fileManager) && apiKey == old(apiKey) && model == old(model)
      ensures fileManager.projectDir == old(fileManager.projectDir)
      ensures if stream.failed then
          && history == old(history)
          && fileManager.files == old(fileManager.files) && fileManager.created == old(fileManager.created)
          && disk.Contents() == old(disk.Contents())
          && r == Err(ApiFailed)
        else
          var o := FM.Run(fileManager.projectDir, old(fileManager.files), old(fileManager.created),
            old(disk.Contents()), FM.SafeWrites(FileBlocks.Blocks(Reply(stream.chunks))), []);
          && history == old(history) + [Message(Assistant, Reply(stream.chunks))]
          && fileManager.files == o.table && fileManager.created == o.created && disk.Contents() == o.store
          && r == if o.error.None? then Ok(o.written) else Err(WriteFailed(o.error.value))
    {
      var fullResponse := CollectReply(stream.chunks);
      if stream.failed {
        return Err(ApiFailed);
      }
      history := history + [Message(Assistant, fullResponse)];
      var written := fileManager.ParseAndWrite(fullResponse, disk);
      match written {
        case Ok(paths) => r := Ok(paths);
        case Err(e) => r := Err(WriteFailed(e));
      }
    }

    /** `getDir()`. */
    function GetDir(): string
      reads this, fileManager
    {
      fileManager.projectDir
    }

    /** `reset()`: the history is emptied and a new file manager, with no files and no
        directory made, replaces the old one; the files already on disk stay. */
    method Reset(cwd: string, now: Instant)
      requires ValidInstant(now)
      modifies this
      ensures history == [] && fresh(fileManager) && Valid()
      ensures fileManager.files == FM.EMPTY_TABLE && !fileManager.created
      ensures fileManager.projectDir == JoinPath(JoinPath(cwd, "projects"), ProjectDirName(now))
      ensures fileManager.GetContext() == None
      ensures apiKey == old(apiKey) && model == old(model)
    {
      history := [];
      fileManager := new FM.FileManager(cwd, now);
    }
  }

  /** `new ChatSession()`: `.env` is loaded, then the key is checked; without a usable key
      the process exits before anything is created, which is `None` here. */
  method NewChatSession(env: Environment, dotenv: Option<string>, cwd: string, now: Instant)
    returns (r: Option<ChatSession>)
    requires ValidInstant(now)
    modifies env
    ensures env.vars == LoadedEnv(old(env.vars), dotenv)
    ensures r.None? <==> ApiKey(env.vars).None?
    ensures r.Some? ==>
      && fresh(r.value) && fresh(r.value.fileManager) && r.value.Valid()
      && r.value.apiKey == ApiKey(env.vars).value && r.value.history == [] && r.value.model == MODEL
      && r.value.fileManager.files == FM.EMPTY_TABLE && !r.value.fileManager.created
      && r.value.fileManager.projectDir == JoinPath(JoinPath(cwd, "projects"), ProjectDirName(now))
  {
    env.LoadEnv(dotenv);
    var key := ApiKey(env.vars);
    if key.None? {
      return None;
    }
    var s := new ChatSession(key.value, cwd, now);
    return Some(s);
  }
}
