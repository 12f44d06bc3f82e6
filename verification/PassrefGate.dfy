/** Which requests reach the store, what the others get, and what a session can learn from an expansion. */
module PassrefGate {
  import opened Prelude
  import opened Json
  import opened Passref
  import opened PassrefGuarantees

  // ---- the markers of a denied request ----

  lemma CharsConcat(a: string, b: string)
    ensures Chars(a + b) == Chars(a) + Chars(b)
  {
  }

  lemma NoHandleWithoutColon(s: string)
    requires |s| < HANDLE_LENGTH || ':' !in s
    ensures !TextHasHandle(Chars(s))
  {
    forall k: nat
      ensures !HandleAt(Chars(s), k)
    {
      if k + 3 < |s| {
        assert Chars(s)[k + 3] == s[k + 3] as int;
      }
    }
  }

  lemma CharsAround(a: string, c: char, b: string)
    ensures Chars(a + [c] + b) == Chars(a) + ([c as int] + Chars(b))
  {
  }

  /** Literal text around a character that handles do not hold. */
  lemma PlainAround(a: string, c: char, b: string)
    requires !InHandle(c as int)
    requires |a| < HANDLE_LENGTH || ':' !in a
    requires |b| < HANDLE_LENGTH || ':' !in b
    ensures !TextHasHandle(Chars(a + [c] + b))
  {
    NoHandleWithoutColon(a);
    NoHandleWithoutColon(b);
    Barrier(Chars(a), c as int, Chars(b));
    CharsAround(a, c, b);
  }

  lemma SessionRequiredHoldsNoHandle()
    ensures Bracketed(SessionRequiredMarker()) && !TextHasHandle(SessionRequiredMarker())
  {
    var a, b := "[tokenjuice-hermes:", "passref requires a session ID]";
    SessionRequiredIsBracketed();
    SessionRequiredText();
    SessionRequiredLiterals();
    Barrier(Chars(a), ' ' as int, Chars(b));
  }

  lemma SessionRequiredIsBracketed()
    ensures Bracketed(SessionRequiredMarker())
  {
    var a, b := "[tokenjuice-hermes:", "passref requires a session ID]";
    SessionRequiredText();
    assert a[0] == '[' && b[29] == ']' && |b| == 30;
  }

  lemma SessionRequiredLiterals()
    ensures !TextHasHandle(Chars("[tokenjuice-hermes:")) && !TextHasHandle(Chars("passref requires a session ID]"))
  {
    PlainAround("[tokenjuice", '-', "hermes:");
    assert "[tokenjuice-hermes:" == "[tokenjuice" + ['-'] + "hermes:";
    NoHandleWithoutColon("passref requires a session ID]");
  }

  lemma SessionRequiredText()
    ensures SessionRequiredMarker() == Chars("[tokenjuice-hermes:") + ([' ' as int] + Chars("passref requires a session ID]"))
  {
    var a, b := "[tokenjuice-hermes:", "passref requires a session ID]";
    assert "[tokenjuice-hermes: passref requires a session ID]" == a + [' '] + b;
    CharsAround(a, ' ', b);
  }

  const DENIAL_START := "[tokenjuice-hermes: tool "
  const DENIAL_END := " is not eligible for passref expansion]"

  lemma CharsOne(c: char, s: string)
    ensures Chars([c] + s) == [c as int] + Chars(s)
  {
  }

  lemma DenialText(tool: Text)
    ensures DenialMarker(tool) == Chars(DENIAL_START) + (['\'' as int] + (tool + (['\'' as int] + Chars(DENIAL_END))))
  {
    DenialStartText();
    DenialEndText();
  }

  lemma DenialStartText()
    ensures Chars("[tokenjuice-hermes: tool '") == Chars(DENIAL_START) + ['\'' as int]
  {
    assert "[tokenjuice-hermes: tool '" == DENIAL_START + ['\''];
    CharsConcat(DENIAL_START, ['\'']);
  }

  lemma DenialEndLiteral()
    ensures "' is not eligible for passref expansion]" == ['\''] + DENIAL_END
  {
    var whole := "' is not eligible for passref expansion]";
    assert |whole| == 40 && |DENIAL_END| == 39;
  }

  lemma DenialEndText()
    ensures Chars("' is not eligible for passref expansion]") == ['\'' as int] + Chars(DENIAL_END)
  {
    DenialEndLiteral();
    CharsOne('\'', DENIAL_END);
  }

  lemma DenialLiterals()
    ensures !TextHasHandle(Chars(DENIAL_START)) && !TextHasHandle(Chars(DENIAL_END))
  {
    PlainAround("[tokenjuice", '-', "hermes: tool ");
    assert DENIAL_START == "[tokenjuice" + ['-'] + "hermes: tool ";
    NoHandleWithoutColon(DENIAL_END);
  }

  lemma DenialIsBracketed(tool: Text)
    ensures Bracketed(DenialMarker(tool))
  {
  }

  /** The marker repeats the tool's name, so it holds a handle exactly when the name does. */
  lemma DenialHoldsHandle(tool: Text)
    ensures Bracketed(DenialMarker(tool)) && (TextHasHandle(DenialMarker(tool)) <==> TextHasHandle(tool))
  {
    var quote := '\'' as int;
    DenialIsBracketed(tool);
    DenialText(tool);
    DenialLiterals();
    Barrier(tool, quote, Chars(DENIAL_END));
    Barrier(Chars(DENIAL_START), quote, tool + ([quote] + Chars(DENIAL_END)));
  }

  // ---- which requests are rewritten ----

  lemma {:induction false} SubKeepsChanged(f: Callback, t: Text, i: nat, a: Account)
    requires i <= |t| && forall id, a :: f(id, a).1.changed == a.changed
    ensures SubWith(f, t, i, a).1.changed == a.changed
    decreases |t| - i
  {
    var j := FindFrom(t, i);
    if j < |t| {
      SubKeepsChanged(f, t, j + HANDLE_LENGTH, f(HandleId(t, j), a).1);
    }
  }

  lemma TextChanged(env: Env, t: Text, a: Account)
    ensures ExpandText(env, t, a).1.changed <==> a.changed || TextHasHandle(t)
  {
    if TextHasHandle(t) {
      SubKeepsChanged(Replacer(env), t, 0, a.(changed := true));
    }
  }

  /** The budget is marked as changed exactly when some string holds a handle. */
  lemma {:induction false} ChangedIffHandle(env: Env, v: Value, a: Account)
    ensures ExpandTree(env, v, a).account.changed <==> a.changed || HasHandle(v)
    decreases v, 1, 0
  {
    match v
    case Str(text) => TextChanged(env, text, a);
    case Arr(items) => ItemsChanged(env, v, |items|, a);
    case Obj(fields) => FieldsChanged(env, v, |fields|, a);
    case _ =>
  }

  lemma {:induction false} ItemsChanged(env: Env, v: Value, n: nat, a: Account)
    requires v.Arr? && n <= |v.items|
    ensures ExpandItems(env, v, n, a).account.changed
       <==> a.changed || exists k :: 0 <= k < n && HasHandle(v.items[k])
    decreases v, 0, n
  {
    if n > 0 {
      ItemsChanged(env, v, n - 1, a);
      ChangedIffHandle(env, v.items[n - 1], ExpandItems(env, v, n - 1, a).account);
    }
  }

  lemma {:induction false} FieldsChanged(env: Env, v: Value, n: nat, a: Account)
    requires v.Obj? && n <= |v.fields|
    ensures ExpandFields(env, v, n, a).account.changed
       <==> a.changed || exists k :: 0 <= k < n && HasHandle(v.fields[k].1)
    decreases v, 0, n
  {
    if n > 0 {
      FieldsChanged(env, v, n - 1, a);
      ChangedIffHandle(env, v.fields[n - 1].1, ExpandFields(env, v, n - 1, a).account);
    }
  }

  /** A request is left alone exactly when the plugin does not look at it, when no argument holds a handle, or when it may
      be expanded but there is no store. */
  lemma LeftAloneIff(config: Config, store: Option<Stores>, q: Request, lower: Text -> Text)
    ensures ToolRequest(config, store, q, lower).None?
       <==> !Concerns(config, q, lower) || !HasHandle(q.args) || (Open(config, q, lower) && store.None?)
  {
    if Open(config, q, lower) && store.Some? {
      ChangedIffHandle(Env(store.value, config, q.session.value, PluginMarkers()), q.args, OPENED);
    }
  }

  /** A denied request keeps no handle, except that a tool whose name holds a handle gets that one back in the marker. */
  lemma DeniedHandlesAreGone(config: Config, store: Option<Stores>, q: Request, lower: Text -> Text)
    requires Concerns(config, q, lower) && !Open(config, q, lower) && HasHandle(q.args)
    ensures var r := ToolRequest(config, store, q, lower);
            r.Some? && (HasHandle(r.value) <==> !ToolAllowed(q.tool.value, config, lower) && TextHasHandle(q.tool.value))
  {
    if ToolAllowed(q.tool.value, config, lower) {
      SessionRequiredHoldsNoHandle();
      ReplaceLeavesHandle(q.args, SessionRequiredMarker());
    } else {
      DenialHoldsHandle(q.tool.value);
      ReplaceLeavesHandle(q.args, DenialMarker(q.tool.value));
    }
  }

  // ---- what a session can learn ----

  /** At every moment the stores answer alike as far as the session is entitled to know. */
  ghost predicate AlikeFor(s1: Stores, s2: Stores, session: Text) {
    forall n: nat :: AlikeAt(s1(n), s2(n), session)
  }

  ghost predicate AlikeAt(s1: Store, s2: Store, session: Text) {
    forall id: Text ::
      && s1.references(id, session) == s2.references(id, session)
      && (if s1.references(id, session) then s1.blobText(id) == s2.blobText(id) else s1.hasBlob(id) == s2.hasBlob(id))
  }

  lemma {:induction false} SameCallbacks(f: Callback, g: Callback, t: Text, i: nat, a: Account)
    requires i <= |t| && forall id, a :: f(id, a) == g(id, a)
    ensures SubWith(f, t, i, a) == SubWith(g, t, i, a)
    decreases |t| - i
  {
    var j := FindFrom(t, i);
    if j < |t| {
      SameCallbacks(f, g, t, j + HANDLE_LENGTH, f(HandleId(t, j), a).1);
    }
  }

  lemma TextLearnsOwnBlobs(e1: Env, e2: Env, t: Text, a: Account)
    requires e1.config == e2.config && e1.session == e2.session && e1.markers == e2.markers
    requires AlikeFor(e1.store, e2.store, e1.session)
    ensures ExpandText(e1, t, a) == ExpandText(e2, t, a)
  {
    forall id, a
      ensures Replacer(e1)(id, a) == Replacer(e2)(id, a)
    {
      var s1, s2 := e1.store(a.met), e2.store(a.met);
      assert AlikeAt(s1, s2, e1.session);
      assert s1.references(id, e1.session) == s2.references(id, e1.session);
      assert Resolve(e1, id, a) == Resolve(e2, id, a);
    }
    SameCallbacks(Replacer(e1), Replacer(e2), t, 0, a.(changed := true));
  }

  lemma {:induction false} TreeLearnsOwnBlobs(e1: Env, e2: Env, v: Value, a: Account)
    requires e1.config == e2.config && e1.session == e2.session && e1.markers == e2.markers
    requires AlikeFor(e1.store, e2.store, e1.session)
    ensures ExpandTree(e1, v, a) == ExpandTree(e2, v, a)
    decreases v, 1, 0
  {
    match v
    case Str(text) => TextLearnsOwnBlobs(e1, e2, text, a);
    case Arr(items) => ItemsLearnOwnBlobs(e1, e2, v, |items|, a);
    case Obj(fields) => FieldsLearnOwnBlobs(e1, e2, v, |fields|, a);
    case _ =>
  }

  lemma {:induction false} ItemsLearnOwnBlobs(e1: Env, e2: Env, v: Value, n: nat, a: Account)
    requires e1.config == e2.config && e1.session == e2.session && e1.markers == e2.markers
    requires AlikeFor(e1.store, e2.store, e1.session) && v.Arr? && n <= |v.items|
    ensures ExpandItems(e1, v, n, a) == ExpandItems(e2, v, n, a)
    decreases v, 0, n
  {
    if n > 0 {
      ItemsLearnOwnBlobs(e1, e2, v, n - 1, a);
      TreeLearnsOwnBlobs(e1, e2, v.items[n - 1], ExpandItems(e1, v, n - 1, a).account);
    }
  }

  lemma {:induction false} FieldsLearnOwnBlobs(e1: Env, e2: Env, v: Value, n: nat, a: Account)
    requires e1.config == e2.config && e1.session == e2.session && e1.markers == e2.markers
    requires AlikeFor(e1.store, e2.store, e1.session) && v.Obj? && n <= |v.fields|
    ensures ExpandFields(e1, v, n, a) == ExpandFields(e2, v, n, a)
    decreases v, 0, n
  {
    if n > 0 {
      FieldsLearnOwnBlobs(e1, e2, v, n - 1, a);
      TreeLearnsOwnBlobs(e1, e2, v.fields[n - 1].1, ExpandFields(e1, v, n - 1, a).account);
    }
  }

  /** Non-interference: without an allowed tool and a session the store does not matter at all, and with them only the
      answers about the session's own blobs, and the mere presence of others, do. */
  lemma RequestLearnsOwnBlobs(config: Config, s1: Stores, s2: Stores, q: Request, lower: Text -> Text)
    requires Open(config, q, lower) ==> AlikeFor(s1, s2, q.session.value)
    ensures ToolRequest(config, Some(s1), q, lower) == ToolRequest(config, Some(s2), q, lower)
  {
    if Open(config, q, lower) {
      TreeLearnsOwnBlobs(Env(s1, config, q.session.value, PluginMarkers()), Env(s2, config, q.session.value, PluginMarkers()),
                         q.args, OPENED);
    }
  }
}
