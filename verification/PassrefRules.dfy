/** The gate and the expansion of one handle, said in literal texts and numbers. */
module PassrefRules {
  import opened Prelude
  import opened Json
  import opened Numerals
  import opened Passref
  import opened PassrefGuarantees
  import opened PassrefGate

  // ---- handles ----

  /** Four fixed characters and twelve lower-case hexadecimal digits. */
  ghost predicate IsHandle(t: Text) {
    |t| == 16 && t[..4] == Chars("tla:") && forall k :: 4 <= k < 16 ==> IsOneOf(t[k], "0123456789abcdef")
  }

  ghost predicate IsOneOf(c: int, characters: string) {
    exists k :: 0 <= k < |characters| && characters[k] as int == c
  }

  lemma HexIff(c: int)
    ensures IsLowerHex(c) <==> IsOneOf(c, "0123456789abcdef")
  {
    var s := "0123456789abcdef";
    assert |s| == 16;
    assert s[0] == '0' && s[1] == '1' && s[2] == '2' && s[3] == '3' && s[4] == '4' && s[5] == '5' && s[6] == '6' && s[7] == '7';
    assert s[8] == '8' && s[9] == '9' && s[10] == 'a' && s[11] == 'b' && s[12] == 'c' && s[13] == 'd' && s[14] == 'e' && s[15] == 'f';
    if IsLowerHex(c) {
      var k := if c <= '9' as int then c - '0' as int else c - 'a' as int + 10;
      assert s[k] as int == c;
    }
  }

  lemma HandleIff(t: Text, i: nat)
    ensures HandleAt(t, i) <==> i + 16 <= |t| && IsHandle(t[i..i + 16])
  {
    if i + 16 <= |t| {
      var h := t[i..i + 16];
      assert Chars("tla:") == HANDLE_PREFIX;
      assert h[..4] == HANDLE_PREFIX <==> h[0] == 't' as int && h[1] == 'l' as int && h[2] == 'a' as int && h[3] == ':' as int;
      forall k | 4 <= k < 16
        ensures IsOneOf(h[k], "0123456789abcdef") <==> IsLowerHex(t[i + 4..i + 16][k - 4])
      {
        HexIff(h[k]);
        assert h[k] == t[i + 4..i + 16][k - 4];
      }
    }
  }

  // ---- the gate ----

  ghost predicate Occurs(word: string, t: Text) {
    exists i :: OccursAt(word, t, i)
  }

  ghost predicate OccursAt(word: string, t: Text, i: int) {
    0 <= i <= |t| - |word| && t[i..i + |word|] == Chars(word)
  }

  /** A name, in lower case, that holds one of the words for tools that send text elsewhere. */
  ghost predicate NamesSink(name: Text) {
    || Occurs("bash", name) || Occurs("curl", name) || Occurs("edit_file", name) || Occurs("exec", name)
    || Occurs("execute_code", name) || Occurs("file_write", name) || Occurs("fs_write", name) || Occurs("http_post", name)
    || Occurs("http_request", name) || Occurs("run_command", name) || Occurs("run_shell", name) || Occurs("shell", name)
    || Occurs("subprocess", name) || Occurs("terminal", name) || Occurs("upload", name) || Occurs("write_file", name)
  }

  lemma OccursIff(word: string, t: Text)
    ensures Contains(t, Chars(word)) <==> Occurs(word, t)
  {
    if Contains(t, Chars(word)) {
      var i :| 0 <= i <= |t| && StartsWith(t, i, Chars(word));
      assert OccursAt(word, t, i);
    }
    if Occurs(word, t) {
      var i :| OccursAt(word, t, i);
      assert StartsWith(t, i, Chars(word));
    }
  }

  /** Some word of the list occurs. */
  ghost predicate SomeOccurs(words: seq<string>, t: Text) {
    exists k :: 0 <= k < |words| && Occurs(words[k], t)
  }

  lemma SinkIsSome(tool: Text, lower: Text -> Text)
    ensures IsSink(tool, lower) <==> SomeOccurs(SINK_TOOLS, lower(tool))
  {
    forall k | 0 <= k < |SINK_TOOLS|
      ensures Contains(lower(tool), Chars(SINK_TOOLS[k])) <==> Occurs(SINK_TOOLS[k], lower(tool))
    {
      OccursIff(SINK_TOOLS[k], lower(tool));
    }
  }

  lemma SinkWords(t: Text)
    ensures SomeOccurs(SINK_TOOLS, t) <==> NamesSink(t)
  {
    var w := SINK_TOOLS;
    assert |w| == 16;
    assert w[0] == "bash" && w[1] == "curl" && w[2] == "edit_file" && w[3] == "exec";
    assert w[4] == "execute_code" && w[5] == "file_write" && w[6] == "fs_write" && w[7] == "http_post";
    assert w[8] == "http_request" && w[9] == "run_command" && w[10] == "run_shell" && w[11] == "shell";
    assert w[12] == "subprocess" && w[13] == "terminal" && w[14] == "upload" && w[15] == "write_file";
  }

  lemma SinkIff(tool: Text, lower: Text -> Text)
    ensures IsSink(tool, lower) <==> NamesSink(lower(tool))
  {
    SinkIsSome(tool, lower);
    SinkWords(lower(tool));
  }

  lemma ExemptIff(tool: Text, lower: Text -> Text)
    ensures IsHardExempt(tool, lower) <==> lower(tool) == Chars("read_file") || lower(tool) == Chars("diagnostics")
  {
    var e := HARD_EXEMPT_TOOLS;
    assert |e| == 2 && e[0] == "read_file" && e[1] == "diagnostics";
  }

  function RefusalText(tool: Text): Text {
    Chars("[tokenjuice-hermes: tool '") + tool + Chars("' is not eligible for passref expansion]")
  }

  /** The plugin is on, the request has the right shape, and its tool is not exempt. */
  ghost predicate IsLookedAt(config: Config, q: Request, lower: Text -> Text) {
    && config.enabled && q.tool.Some? && q.args.Obj?
    && lower(q.tool.value) != Chars("read_file") && lower(q.tool.value) != Chars("diagnostics")
  }

  lemma LookedAtIff(config: Config, q: Request, lower: Text -> Text)
    ensures Concerns(config, q, lower) <==> IsLookedAt(config, q, lower)
  {
    if q.tool.Some? {
      ExemptIff(q.tool.value, lower);
    }
  }

  /** What every request gets.  A tool that is not listed, or whose name holds a sink word although it is listed, never
      reaches the store. */
  lemma RequestExactly(config: Config, store: Option<Stores>, q: Request, lower: Text -> Text)
    ensures var r := ToolRequest(config, store, q, lower);
            if !IsLookedAt(config, q, lower) || !HasHandle(q.args) then r == None
            else if q.tool.value !in config.allowedTools || NamesSink(lower(q.tool.value)) then
              r == Some(ReplaceHandles(q.args, RefusalText(q.tool.value)))
            else if q.session == None || q.session == Some([]) then
              r == Some(ReplaceHandles(q.args, Chars("[tokenjuice-hermes: passref requires a session ID]")))
            else if store == None then r == None
            else r == Some(ExpandTree(Env(store.value, config, q.session.value, PluginMarkers()), q.args, OPENED).value)
  {
    LookedAtIff(config, q, lower);
    LeftAloneIff(config, store, q, lower);
    if q.tool.Some? {
      SinkIff(q.tool.value, lower);
    }
  }

  /** So a sink, whatever the allow list says, and an unlisted tool learn nothing from any store. */
  lemma SinksLearnNothing(config: Config, s1: Option<Stores>, s2: Option<Stores>, q: Request, lower: Text -> Text)
    requires q.tool.Some? ==> NamesSink(lower(q.tool.value)) || q.tool.value !in config.allowedTools
    ensures ToolRequest(config, s1, q, lower) == ToolRequest(config, s2, q, lower)
  {
    RequestExactly(config, s1, q, lower);
    RequestExactly(config, s2, q, lower);
  }

  // ---- one handle ----

  lemma NoHandleAcross(pre: Text, rest: Text, k: nat)
    requires !TextHasHandle(pre) && rest != [] && rest[0] == 't' as int && k < |pre|
    ensures !HandleAt(pre + rest, k)
  {
    var t := pre + rest;
    if k + HANDLE_LENGTH <= |pre| {
      assert pre == t[0..|pre|];
      HandleInSlice(t, 0, |pre|, k);
    } else if k + HANDLE_LENGTH <= |t| {
      assert t[|pre|] == 't' as int;
      if |pre| - k >= 4 {
        assert t[k + 4..k + HANDLE_LENGTH][|pre| - k - 4] == t[|pre|];
      }
    }
  }

  lemma {:induction false} FindIs(t: Text, i: nat, j: nat)
    requires i <= j <= |t| && (j < |t| ==> HandleAt(t, j)) && forall k :: i <= k < j ==> !HandleAt(t, k)
    ensures FindFrom(t, i) == j
    decreases j - i
  {
    if i < j {
      FindIs(t, i + 1, j);
    }
  }

  /** The only handle of a text, and where it stands. */
  lemma OnlyHandle(pre: Text, id: Text, post: Text) returns (t: Text)
    requires !TextHasHandle(pre) && !TextHasHandle(post) && IsId(id)
    ensures t == pre + (HANDLE_PREFIX + id + post)
    ensures HandleAt(t, |pre|) && FindFrom(t, 0) == |pre| && HandleId(t, |pre|) == id
    ensures FindFrom(t, |pre| + HANDLE_LENGTH) == |t| && t[0..|pre|] == pre && t[|pre| + HANDLE_LENGTH..] == post
  {
    var rest := HANDLE_PREFIX + id + post;
    t := pre + rest;
    assert t[|pre| + 4..|pre| + HANDLE_LENGTH] == id;
    forall k: nat | k < |pre|
      ensures !HandleAt(t, k)
    {
      NoHandleAcross(pre, rest, k);
    }
    FindIs(t, 0, |pre|);
    var m := |pre| + HANDLE_LENGTH;
    assert t[m..|t|] == post;
    forall k: nat | m <= k < |t|
      ensures !HandleAt(t, k)
    {
      HandleInSlice(t, m, |t|, k - m);
    }
    FindIs(t, m, |t|);
  }

  /** Substitution in such a text. */
  lemma SubInOnly(f: Callback, pre: Text, id: Text, post: Text, a: Account) returns (t: Text, o: Out, b: Account)
    requires !TextHasHandle(pre) && !TextHasHandle(post) && IsId(id)
    ensures t == pre + (HANDLE_PREFIX + id + post) && TextHasHandle(t) && (o, b) == f(id, a)
    ensures Spell(SubWith(f, t, 0, a).0) == pre + (OutText(o) + post) && SubWith(f, t, 0, a).1 == b
  {
    var j, rest;
    t := OnlyHandle(pre, id, post);
    j, o, b, rest := SubStep(f, t, 0, a);
    SubEnd(f, t, j + HANDLE_LENGTH, b, post);
    SpellThen(pre, o, rest.0);
    SpellOne(Kept(post));
  }

  lemma SubEnd(f: Callback, t: Text, i: nat, a: Account, post: Text)
    requires i <= |t| && FindFrom(t, i) == |t| && t[i..] == post
    ensures SubWith(f, t, i, a) == ([Kept(post)], a)
  {
  }

  function SpentText(limit: nat): Text {
    Chars("[tokenjuice-hermes: total expansion budget " + Grouped(limit) + " chars exceeded]")
  }

  function CutText(length: nat, cap: nat): Text {
    Chars("\n[tokenjuice-hermes: truncated, blob is " + Grouped(length) + " chars > passref_max_chars " + Grouped(cap) + "]")
  }

  function ElsewhereText(id: Text): Text {
    Chars("[tokenjuice-hermes: blob ") + id + Chars(" not available in this session]")
  }

  function GoneText(id: Text): Text {
    Chars("[tokenjuice-hermes: blob ") + id + Chars(" unavailable; re-run the source tool]")
  }

  /** The characters that take the place of a handle, and the counters after it, where the store gives these answers. */
  ghost predicate IsAnswer(env: Env, store: Store, id: Text, a: Account, text: Text, b: Account) {
    var limit := env.config.totalMaxChars;
    if a.total >= limit then text == SpentText(limit) && b == a.(exceeded := true)
    else if store.references(id, env.session) && store.blobText(id).Some? then
      var content, left := store.blobText(id).value, limit - a.total;
      var cap := Min(env.config.maxChars, left);
      if |content| <= cap then text == content && b == a.(total := a.total + |content|)
      else text == content[..cap] + CutText(|content|, cap) && b == a.(total := a.total + |text|, truncated := true)
    else
      b == a && text == if !store.references(id, env.session) && store.hasBlob(id) then ElsewhereText(id) else GoneText(id)
  }

  ghost predicate WritesTexts(markers: Markers) {
    && (forall id :: markers.missing(id) == GoneText(id) && markers.otherSession(id) == ElsewhereText(id))
    && (forall limit :: markers.budget(limit) == SpentText(limit))
    && (forall length, cap :: markers.truncation(length, cap) == CutText(length, cap))
  }

  lemma PluginWritesTexts()
    ensures WritesTexts(PluginMarkers())
  {
  }

  /** What `Resolve` makes of a referenced blob. */
  lemma ResolvedBlob(env: Env, id: Text, a: Account, content: Text, cap: nat)
    requires a.total < env.config.totalMaxChars && env.store(a.met).references(id, env.session)
    requires env.store(a.met).blobText(id) == Some(content) && cap == Min(env.config.maxChars, env.config.totalMaxChars - a.total)
    ensures var (o, b), c := Resolve(env, id, a), a.(met := a.met + 1);
            if |content| <= cap then o == Blob(id, content, []) && b == c.(total := a.total + |content|)
            else
              var cut := env.markers.truncation(|content|, cap);
              o == Blob(id, content[..cap], cut) && b == c.(total := a.total + cap + |cut|, truncated := true)
  {
  }

  lemma BlobAnswers(env: Env, id: Text, a: Account)
    requires WritesTexts(env.markers) && a.total < env.config.totalMaxChars
    requires env.store(a.met).references(id, env.session) && env.store(a.met).blobText(id).Some?
    ensures IsAnswer(env, env.store(a.met), id, a.(met := a.met + 1), OutText(Resolve(env, id, a).0), Resolve(env, id, a).1)
  {
    var content := env.store(a.met).blobText(id).value;
    var cap := Min(env.config.maxChars, env.config.totalMaxChars - a.total);
    ResolvedBlob(env, id, a, content, cap);
    assert content + [] == content;
    assert env.markers.truncation(|content|, cap) == CutText(|content|, cap);
  }

  lemma ResolveAnswers(env: Env, id: Text, a: Account)
    requires WritesTexts(env.markers)
    ensures IsAnswer(env, env.store(a.met), id, a.(met := a.met + 1), OutText(Resolve(env, id, a).0), Resolve(env, id, a).1)
  {
    if a.total < env.config.totalMaxChars && env.store(a.met).references(id, env.session) && env.store(a.met).blobText(id).Some? {
      BlobAnswers(env, id, a);
    }
  }

  lemma ExpandedString(env: Env, t: Text, a: Account)
    requires TextHasHandle(t)
    ensures var r, e := SubWith(Replacer(env), t, 0, a.(changed := true)), ExpandTree(env, Str(t), a);
            e.value == Str(Spell(r.0)) && e.account == r.1
  {
  }

  /** A string with one handle: everything around the handle stays, and the handle becomes the answer to it. */
  lemma OneHandleExactly(env: Env, pre: Text, id: Text, post: Text, a: Account) returns (text: Text)
    requires env.markers == PluginMarkers() && !TextHasHandle(pre) && !TextHasHandle(post) && IsId(id)
    ensures var e := ExpandTree(env, Str(pre + (HANDLE_PREFIX + id + post)), a);
            && e.value == Str(pre + (text + post))
            && IsAnswer(env, env.store(a.met), id, a.(met := a.met + 1, changed := true), text, e.account)
  {
    var started := a.(changed := true);
    var t, o, b := SubInOnly(Replacer(env), pre, id, post, started);
    text := OutText(o);
    ExpandedString(env, t, a);
    PluginWritesTexts();
    ResolveAnswers(env, id, started);
  }
}
