/** Expansion of rescue handles in tool arguments: the handle pattern, the markers, the budget and the rewriting. */
module Passref {
  import opened Prelude
  import opened Json
  import Numerals

  // ---- handles ----

  const HANDLE_LENGTH: nat := 16

  predicate IsLowerHex(c: int) {
    '0' as int <= c <= '9' as int || 'a' as int <= c <= 'f' as int
  }

  predicate AllLowerHex(s: Text) {
    forall k :: 0 <= k < |s| ==> IsLowerHex(s[k])
  }

  /** The handle pattern matches `t` at `i`. */
  predicate HandleAt(t: Text, i: nat) {
    && i + HANDLE_LENGTH <= |t|
    && t[i] == 't' as int && t[i + 1] == 'l' as int && t[i + 2] == 'a' as int && t[i + 3] == ':' as int
    && AllLowerHex(t[i + 4..i + HANDLE_LENGTH])
  }

  /** The leftmost match from `i` on, the length of `t` when there is none. */
  function FindFrom(t: Text, i: nat): (j: nat)
    requires i <= |t|
    ensures i <= j <= |t| && (j < |t| ==> HandleAt(t, j)) && forall k :: i <= k < j ==> !HandleAt(t, k)
    decreases |t| - i
  {
    if i == |t| || HandleAt(t, i) then i else FindFrom(t, i + 1)
  }

  predicate TextHasHandle(t: Text) {
    FindFrom(t, 0) < |t|
  }

  /** Whether a string at any depth holds a handle; keys are not looked at. */
  predicate HasHandle(v: Value) {
    match v
    case Str(text) => TextHasHandle(text)
    case Arr(items) => exists k :: 0 <= k < |items| && HasHandle(items[k])
    case Obj(fields) => exists k :: 0 <= k < |fields| && HasHandle(fields[k].1)
    case _ => false
  }

  /** The text from `i` on with every match replaced. */
  function SubFrom(t: Text, i: nat, replacement: Text): Text
    requires i <= |t|
    decreases |t| - i
  {
    var j := FindFrom(t, i);
    if j == |t| then t[i..] else t[i..j] + (replacement + SubFrom(t, j + HANDLE_LENGTH, replacement))
  }

  function ReplaceHandles(v: Value, replacement: Text): Value {
    match v
    case Str(text) => Str(SubFrom(text, 0, replacement))
    case Arr(items) => Arr(seq(|items|, k requires 0 <= k < |items| => ReplaceHandles(items[k], replacement)))
    case Obj(fields) =>
      Obj(seq(|fields|, k requires 0 <= k < |fields| => (fields[k].0, ReplaceHandles(fields[k].1, replacement))))
    case _ => v
  }

  // ---- markers ----

  function Chars(s: string): Text {
    seq(|s|, k requires 0 <= k < |s| => s[k] as int)
  }

  function DenialMarker(tool: Text): Text {
    Chars("[tokenjuice-hermes: tool '") + tool + Chars("' is not eligible for passref expansion]")
  }

  function SessionRequiredMarker(): Text {
    Chars("[tokenjuice-hermes: passref requires a session ID]")
  }

  function MissingMarker(id: Text): Text {
    Chars("[tokenjuice-hermes: blob ") + id + Chars(" unavailable; re-run the source tool]")
  }

  function SessionMarker(id: Text): Text {
    Chars("[tokenjuice-hermes: blob ") + id + Chars(" not available in this session]")
  }

  function BudgetMarker(total: nat): Text {
    Chars("[tokenjuice-hermes: total expansion budget " + Numerals.Grouped(total) + " chars exceeded]")
  }

  function TruncationMarker(original: nat, cap: nat): Text {
    Chars("\n[tokenjuice-hermes: truncated, blob is " + Numerals.Grouped(original) + " chars > passref_max_chars "
          + Numerals.Grouped(cap) + "]")
  }

  /** The texts that stand for what expansion does not put in. */
  datatype Markers = Markers(missing: Text -> Text, otherSession: Text -> Text, budget: nat -> Text,
                             truncation: (nat, nat) -> Text)

  function PluginMarkers(): Markers {
    Markers(MissingMarker, SessionMarker, BudgetMarker, TruncationMarker)
  }

  // ---- expansion ----

  datatype Config = Config(enabled: bool, allowedTools: set<Text>, maxChars: nat, totalMaxChars: nat)

  /** What the store answers; `references` also takes the session. */
  datatype Store = Store(references: (Text, Text) -> bool, hasBlob: Text -> bool, blobText: Text -> Option<Text>)

  /** The store changes while a request is expanded: `store(n)` gives the answers about the n-th handle. */
  type Stores = nat -> Store

  datatype Env = Env(store: Stores, config: Config, session: Text, markers: Markers)

  /** The values of the four counters of a budget, and how many handles were met so far. */
  datatype Account = Account(total: nat, changed: bool, truncated: bool, exceeded: bool, met: nat)

  /** A stretch of the rewritten text and where it comes from; `cut` is the truncation marker after a shortened blob. */
  datatype Out = Kept(text: Text) | Refused(id: Text, marker: Text) | Blob(id: Text, content: Text, cut: Text)

  function OutText(o: Out): Text {
    match o
    case Kept(text) => text
    case Refused(_, marker) => marker
    case Blob(_, content, cut) => content + cut
  }

  function Spell(outs: seq<Out>): Text {
    if outs == [] then [] else OutText(outs[0]) + Spell(outs[1..])
  }

  /** What takes the place of one handle. */
  function Resolve(env: Env, id: Text, before: Account): (Out, Account) {
    var limit, store, a := env.config.totalMaxChars, env.store(before.met), before.(met := before.met + 1);
    if a.total >= limit then (Refused(id, env.markers.budget(limit)), a.(exceeded := true))
    else if !store.references(id, env.session) then
      (Refused(id, if store.hasBlob(id) then env.markers.otherSession(id) else env.markers.missing(id)), a)
    else match store.blobText(id)
      case None => (Refused(id, env.markers.missing(id)), a)
      case Some(content) =>
        var cap := if env.config.maxChars < limit - a.total then env.config.maxChars else limit - a.total;
        if |content| > cap then
          var cut := env.markers.truncation(|content|, cap);
          (Blob(id, content[..cap], cut), a.(total := a.total + cap + |cut|, truncated := true))
        else (Blob(id, content, []), a.(total := a.total + |content|))
  }

  function HandleId(t: Text, j: nat): Text
    requires HandleAt(t, j)
  {
    t[j + 4..j + HANDLE_LENGTH]
  }

  /** The callback that `re.sub` is given: from a handle and the counters, what replaces it and the new counters. */
  type Callback = (Text, Account) -> (Out, Account)

  function Replacer(env: Env): Callback {
    (id: Text, a: Account) => Resolve(env, id, a)
  }

  /** `re.sub` with a callback, on the text from `i` on: handle after handle. */
  function SubWith(f: Callback, t: Text, i: nat, a: Account): (seq<Out>, Account)
    requires i <= |t|
    decreases |t| - i
  {
    var j := FindFrom(t, i);
    if j == |t| then ([Kept(t[i..])], a)
    else
      var (o, b) := f(HandleId(t, j), a);
      var (outs, c) := SubWith(f, t, j + HANDLE_LENGTH, b);
      ([Kept(t[i..j]), o] + outs, c)
  }

  function ExpandText(env: Env, t: Text, a: Account): (seq<Out>, Account) {
    if TextHasHandle(t) then SubWith(Replacer(env), t, 0, a.(changed := true)) else ([Kept(t)], a)
  }

  /** The rewritten value, the stretches of all its strings in order, and the counters afterwards. */
  datatype Expansion<T> = Expansion(value: T, outs: seq<Out>, account: Account)

  function ExpandTree(env: Env, v: Value, a: Account): Expansion<Value>
    decreases v, 1, 0
  {
    match v
    case Str(text) => var (outs, b) := ExpandText(env, text, a); Expansion(Str(Spell(outs)), outs, b)
    case Arr(items) => var e := ExpandItems(env, v, |items|, a); Expansion(Arr(e.value), e.outs, e.account)
    case Obj(fields) => var e := ExpandFields(env, v, |fields|, a); Expansion(Obj(e.value), e.outs, e.account)
    case _ => Expansion(v, [], a)
  }

  /** The first n items of an array, in order. */
  function ExpandItems(env: Env, v: Value, n: nat, a: Account): Expansion<seq<Value>>
    requires v.Arr? && n <= |v.items|
    decreases v, 0, n
  {
    if n == 0 then Expansion([], [], a)
    else
      var front := ExpandItems(env, v, n - 1, a);
      var last := ExpandTree(env, v.items[n - 1], front.account);
      Expansion(front.value + [last.value], front.outs + last.outs, last.account)
  }

  function ExpandFields(env: Env, v: Value, n: nat, a: Account): Expansion<seq<(Text, Value)>>
    requires v.Obj? && n <= |v.fields|
    decreases v, 0, n
  {
    if n == 0 then Expansion([], [], a)
    else
      var front := ExpandFields(env, v, n - 1, a);
      var last := ExpandTree(env, v.fields[n - 1].1, front.account);
      Expansion(front.value + [(v.fields[n - 1].0, last.value)], front.outs + last.outs, last.account)
  }

  const OPENED: Account := Account(0, false, false, false, 0)

  // ---- the gate ----

  const HARD_EXEMPT_TOOLS: seq<string> := ["read_file", "diagnostics"]

  const SINK_TOOLS: seq<string> := [
    "bash", "curl", "edit_file", "exec", "execute_code", "file_write", "fs_write", "http_post", "http_request",
    "run_command", "run_shell", "shell", "subprocess", "terminal", "upload", "write_file"]

  predicate Contains(t: Text, part: Text) {
    exists i :: 0 <= i <= |t| && StartsWith(t, i, part)
  }

  /** `lower` is Python's str.lower. */
  predicate IsHardExempt(tool: Text, lower: Text -> Text) {
    exists k :: 0 <= k < |HARD_EXEMPT_TOOLS| && lower(tool) == Chars(HARD_EXEMPT_TOOLS[k])
  }

  predicate IsSink(tool: Text, lower: Text -> Text) {
    exists k :: 0 <= k < |SINK_TOOLS| && Contains(lower(tool), Chars(SINK_TOOLS[k]))
  }

  predicate ToolAllowed(tool: Text, config: Config, lower: Text -> Text) {
    !IsSink(tool, lower) && tool in config.allowedTools
  }

  function MaybeDeny(args: Value, marker: Text): Option<Value> {
    if HasHandle(args) then Some(ReplaceHandles(args, marker)) else None
  }

  /** A request as the host passes it: a tool name or session that is not a string is None. */
  datatype Request = Request(tool: Option<Text>, args: Value, session: Option<Text>)

  /** The request is one that the plugin looks at. */
  predicate Concerns(config: Config, q: Request, lower: Text -> Text) {
    config.enabled && q.tool.Some? && q.args.Obj? && !IsHardExempt(q.tool.value, lower)
  }

  /** The only way to the store. */
  predicate Open(config: Config, q: Request, lower: Text -> Text) {
    Concerns(config, q, lower) && ToolAllowed(q.tool.value, config, lower) && q.session.Some? && q.session.value != []
  }

  function ToolRequest(config: Config, store: Option<Stores>, q: Request, lower: Text -> Text): Option<Value> {
    if !Concerns(config, q, lower) then None
    else if !ToolAllowed(q.tool.value, config, lower) then MaybeDeny(q.args, DenialMarker(q.tool.value))
    else if q.session.None? || q.session.value == [] then MaybeDeny(q.args, SessionRequiredMarker())
    else if store.None? then None
    else
      var e := ExpandTree(Env(store.value, config, q.session.value, PluginMarkers()), q.args, OPENED);
      if e.account.changed then Some(e.value) else None
  }

  // ---- the code, with its mutable budget ----

  /** `whole` is `outs` and then `rest`. */
  ghost predicate Continues(whole: (seq<Out>, Account), outs: seq<Out>, rest: (seq<Out>, Account)) {
    whole == (outs + rest.0, rest.1)
  }

  lemma ContinuesStart(whole: (seq<Out>, Account))
    ensures Continues(whole, [], whole)
  {
    assert [] + whole.0 == whole.0;
  }

  lemma ContinuesStep(f: Callback, t: Text, i: nat, a: Account, whole: (seq<Out>, Account), outs: seq<Out>)
    requires i <= |t| && FindFrom(t, i) < |t| && Continues(whole, outs, SubWith(f, t, i, a))
    ensures var j := FindFrom(t, i);
            var (o, b) := f(HandleId(t, j), a);
            Continues(whole, outs + [Kept(t[i..j]), o], SubWith(f, t, j + HANDLE_LENGTH, b))
  {
    var j := FindFrom(t, i);
    var (o, b) := f(HandleId(t, j), a);
    var rest := SubWith(f, t, j + HANDLE_LENGTH, b);
    assert outs + ([Kept(t[i..j]), o] + rest.0) == outs + [Kept(t[i..j]), o] + rest.0;
  }

  lemma ContinuesEnd(f: Callback, t: Text, i: nat, a: Account, whole: (seq<Out>, Account), outs: seq<Out>)
    requires i <= |t| && FindFrom(t, i) == |t| && Continues(whole, outs, SubWith(f, t, i, a))
    ensures whole == (outs + [Kept(t[i..])], a)
  {
  }

  lemma SpellOne(o: Out)
    ensures Spell([o]) == OutText(o)
  {
    assert [o][1..] == [];
    assert Spell([o][1..]) == [];
  }

  class Budget {
    var total: nat
    var changed: bool
    var truncated: bool
    var exceeded: bool
    /** The source keeps no such counter; here it tells the moments apart at which the store answers. */
    var met: nat

    constructor ()
      ensures State() == OPENED
    {
      total, changed, truncated, exceeded, met := 0, false, false, false, 0;
    }

    function State(): Account
      reads this
    {
      Account(total, changed, truncated, exceeded, met)
    }

    method Replace(env: Env, id: Text) returns (text: Text, ghost o: Out)
      modifies this
      ensures (o, State()) == Resolve(env, id, old(State())) && text == OutText(o)
    {
      var limit, store := env.config.totalMaxChars, env.store(met);
      met := met + 1;
      if total >= limit {
        exceeded := true;
        return env.markers.budget(limit), Refused(id, env.markers.budget(limit));
      }
      if !store.references(id, env.session) {
        if !store.hasBlob(id) {
          return env.markers.missing(id), Refused(id, env.markers.missing(id));
        }
        return env.markers.otherSession(id), Refused(id, env.markers.otherSession(id));
      }
      var blob := store.blobText(id);
      if blob.None? {
        return env.markers.missing(id), Refused(id, env.markers.missing(id));
      }
      text := blob.value;
      o := Blob(id, text, []);
      var remaining := limit - total;
      var cap := if env.config.maxChars < remaining then env.config.maxChars else remaining;
      if |text| > cap {
        o := Blob(id, text[..cap], env.markers.truncation(|text|, cap));
        text := text[..cap] + env.markers.truncation(|text|, cap);
        truncated := true;
      }
      total := total + |text|;
    }

    method ExpandString(env: Env, text: Text) returns (result: Text, ghost outs: seq<Out>)
      modifies this
      ensures (outs, State()) == ExpandText(env, text, old(State())) && result == Spell(outs)
    {
      outs := [Kept(text)];
      var j := FindFrom(text, 0);
      if j == |text| {
        SpellOne(Kept(text));
        return text, outs;
      }
      changed := true;
      result, outs := ReplaceAll(env, text);
    }

    /** The text before the match at `j` and what takes the place of the match. */
    method ReplaceNext(env: Env, text: Text, i: nat, j: nat, ghost whole: (seq<Out>, Account), ghost outs: seq<Out>)
      returns (piece: Text, ghost more: seq<Out>)
      requires i <= j < |text| && j == FindFrom(text, i)
      requires Continues(whole, outs, SubWith(Replacer(env), text, i, State()))
      modifies this
      ensures Continues(whole, more, SubWith(Replacer(env), text, j + HANDLE_LENGTH, State()))
      ensures Spell(more) == Spell(outs) + piece
    {
      ContinuesStep(Replacer(env), text, i, State(), whole, outs);
      var replaced, o := Replace(env, HandleId(text, j));
      SpellPair(outs, Kept(text[i..j]), o);
      piece, more := text[i..j] + replaced, outs + [Kept(text[i..j]), o];
    }

    method ReplaceAll(env: Env, text: Text) returns (result: Text, ghost outs: seq<Out>)
      modifies this
      ensures (outs, State()) == SubWith(Replacer(env), text, 0, old(State())) && result == Spell(outs)
    {
      var i, j := 0, FindFrom(text, 0);
      result, outs := [], [];
      ghost var whole := SubWith(Replacer(env), text, 0, State());
      ContinuesStart(whole);
      while j < |text|
        invariant i <= j <= |text| && j == FindFrom(text, i)
        invariant result == Spell(outs)
        invariant Continues(whole, outs, SubWith(Replacer(env), text, i, State()))
        decreases |text| - i
      {
        var piece, more := ReplaceNext(env, text, i, j, whole, outs);
        result, outs := result + piece, more;
        i := j + HANDLE_LENGTH;
        j := FindFrom(text, i);
      }
      ContinuesEnd(Replacer(env), text, i, State(), whole, outs);
      SpellLast(outs, Kept(text[i..]));
      result, outs := result + text[i..], outs + [Kept(text[i..])];
    }

    method ExpandValue(env: Env, v: Value) returns (result: Value)
      modifies this
      ensures result == ExpandTree(env, v, old(State())).value && State() == ExpandTree(env, v, old(State())).account
      decreases v
    {
      match v
      case Str(text) =>
        var expanded, outs := ExpandString(env, text);
        result := Str(expanded);
      case Arr(items) =>
        var list := [];
        for n := 0 to |items|
          invariant var e := ExpandItems(env, v, n, old(State())); list == e.value && State() == e.account
        {
          var item := ExpandValue(env, items[n]);
          list := list + [item];
        }
        result := Arr(list);
      case Obj(fields) =>
        var dict := [];
        for n := 0 to |fields|
          invariant var e := ExpandFields(env, v, n, old(State())); dict == e.value && State() == e.account
        {
          var item := ExpandValue(env, fields[n].1);
          dict := dict + [(fields[n].0, item)];
        }
        result := Obj(dict);
      case _ =>
        result := v;
    }
  }

  method ExpandWithStore(config: Config, store: Option<Stores>, args: Value, session: Text) returns (result: Option<Value>)
    ensures result == if store.None? then None
                      else
                        var e := ExpandTree(Env(store.value, config, session, PluginMarkers()), args, OPENED);
                        if e.account.changed then Some(e.value) else None
  {
    if store.None? {
      return None;
    }
    var budget := new Budget();
    var expanded := budget.ExpandValue(Env(store.value, config, session, PluginMarkers()), args);
    result := if budget.changed then Some(expanded) else None;
  }

  method HandleRequest(config: Config, store: Option<Stores>, q: Request, lower: Text -> Text) returns (result: Option<Value>)
    ensures result == ToolRequest(config, store, q, lower)
  {
    if !Concerns(config, q, lower) {
      return None;
    }
    if !ToolAllowed(q.tool.value, config, lower) {
      return MaybeDeny(q.args, DenialMarker(q.tool.value));
    }
    if q.session.None? || q.session.value == [] {
      return MaybeDeny(q.args, SessionRequiredMarker());
    }
    result := ExpandWithStore(config, store, q.args, q.session.value);
  }

  lemma {:induction false} SpellConcat(a: seq<Out>, b: seq<Out>)
    ensures Spell(a + b) == Spell(a) + Spell(b)
  {
    if a == [] {
      assert a + b == b;
    } else {
      assert (a + b)[1..] == a[1..] + b;
      SpellConcat(a[1..], b);
    }
  }

  lemma SpellLast(outs: seq<Out>, o: Out)
    ensures Spell(outs + [o]) == Spell(outs) + OutText(o)
  {
    SpellConcat(outs, [o]);
    SpellOne(o);
  }

  lemma SpellPair(outs: seq<Out>, a: Out, b: Out)
    ensures Spell(outs + [a, b]) == Spell(outs) + (OutText(a) + OutText(b))
  {
    SpellConcat(outs, [a, b]);
    assert [a, b][1..] == [b];
    SpellOne(b);
  }
}
