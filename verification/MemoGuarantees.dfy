/** What the memo guarantees over all sequences of calls. */
module MemoGuarantees {
  import opened Prelude
  import opened Json
  import opened JsonPrinter
  import opened Memo

  // ---- the fingerprint ----

  ghost predicate SameOn(c1: Fields, c2: Fields, relevant: string -> bool) {
    forall key :: relevant(key) ==> (key in c1 <==> key in c2) && (key in c1 ==> c1[key] == c2[key])
  }

  /** The requests agree on every input that the fingerprint reads: a key that is absent from a contribution counts as
      null there, but not in the configuration. */
  ghost predicate Agree(q1: Request, q2: Request) {
    && q1.pressure == q2.pressure && q1.threshold == q2.threshold
    && SameOn(q1.config, q2.config, key => key in IDENTITY_KEYS || key in RUNTIME_KEYS || IsPruningKey(key))
    && |q1.contributions| == |q2.contributions|
    && forall i, key :: 0 <= i < |q1.contributions| && key in CONTRIBUTION_KEYS ==>
         Get(q1.contributions[i], key) == Get(q2.contributions[i], key)
  }

  lemma SamePayloadAgrees(q1: Request, q2: Request)
    requires Payload(q1) == Payload(q2)
    ensures Agree(q1, q2)
  {
    var p1, p2 := Payload(q1), Payload(q2);
    assert |p1.rows| == |p2.rows|;
    forall key | key in IDENTITY_KEYS || key in RUNTIME_KEYS || IsPruningKey(key)
      ensures (key in q1.config <==> key in q2.config) && (key in q1.config ==> q1.config[key] == q2.config[key])
    {
      SameEntry(p1.identity, p2.identity, key);
      SameEntry(p1.runtime, p2.runtime, key);
      SameEntry(p1.config, p2.config, key);
    }
    forall i, key | 0 <= i < |q1.contributions| && key in CONTRIBUTION_KEYS
      ensures Get(q1.contributions[i], key) == Get(q2.contributions[i], key)
    {
      assert p1.rows[i][key] == p2.rows[i][key];
    }
  }

  lemma AgreeingRows(q1: Request, q2: Request)
    requires Agree(q1, q2)
    ensures Payload(q1).rows == Payload(q2).rows
  {
    forall i | 0 <= i < |q1.contributions|
      ensures Row(q1.contributions[i]) == Row(q2.contributions[i])
    {
    }
  }

  lemma AgreeingPayloads(q1: Request, q2: Request)
    requires Agree(q1, q2)
    ensures Payload(q1) == Payload(q2)
  {
    AgreeingRows(q1, q2);
    AgreeingMaps(q1.config, q2.config, IDENTITY_KEYS);
    AgreeingMaps(q1.config, q2.config, RUNTIME_KEYS);
    AgreeingPruningConfig(q1.config, q2.config);
  }

  lemma AgreeingPruningConfig(c1: Fields, c2: Fields)
    requires SameOn(c1, c2, key => IsPruningKey(key))
    ensures (map key | key in c1 && IsPruningKey(key) :: c1[key]) == (map key | key in c2 && IsPruningKey(key) :: c2[key])
  {
  }

  lemma AgreeingMaps(c1: Fields, c2: Fields, keys: set<string>)
    requires SameOn(c1, c2, key => key in keys)
    ensures (map key | key in c1 && key in keys :: c1[key]) == (map key | key in c2 && key in keys :: c2[key])
  {
  }

  /** Two requests have one payload exactly when they agree. */
  lemma SamePayloadIff(q1: Request, q2: Request)
    ensures Payload(q1) == Payload(q2) <==> Agree(q1, q2)
  {
    if Payload(q1) == Payload(q2) {
      SamePayloadAgrees(q1, q2);
    }
    if Agree(q1, q2) {
      AgreeingPayloads(q1, q2);
    }
  }

  /** A setting that reaches the fingerprint: whose call it is, the run-time numbers, and the settings of pruning and rescue. */
  predicate IsListedSetting(key: string) {
    || key == "session_id" || key == "turn_id" || key == "task_id" || key == "request_id" || key == "conversation_id"
    || key == "threshold_tokens" || key == "target_tokens" || key == "trigger_tokens" || key == "now_epoch_ms"
    || key == "tool_schema_tokens"
    || (key != "phase" && ("tokenjuice_prompt_pruning_" <= key || "tokenjuice_rescue_" <= key))
  }

  predicate IsListedField(key: string) {
    || key == "id" || key == "kind" || key == "provenance" || key == "class" || key == "stability" || key == "content_hash"
    || key == "token_estimate" || key == "char_count" || key == "atomic_group_id" || key == "prune_policy"
    || key == "protected_reason" || key == "created_at_epoch_ms"
  }

  /** In a contribution, a field that is absent is the same as one that is null. */
  function Field(c: Fields, key: string): Datum {
    if key in c then c[key] else Plain(Null)
  }

  /** Two requests have one fingerprint payload exactly when pressure, threshold, every listed setting and every listed field
      of every contribution are the same. */
  lemma FingerprintSees(q1: Request, q2: Request)
    ensures Payload(q1) == Payload(q2)
       <==> && q1.pressure == q2.pressure && q1.threshold == q2.threshold && |q1.contributions| == |q2.contributions|
            && (forall key :: IsListedSetting(key) ==>
                  (key in q1.config <==> key in q2.config) && (key in q1.config ==> q1.config[key] == q2.config[key]))
            && forall i, key :: 0 <= i < |q1.contributions| && IsListedField(key) ==>
                 Field(q1.contributions[i], key) == Field(q2.contributions[i], key)
  {
    SamePayloadIff(q1, q2);
    if |q1.contributions| != |q2.contributions| {
      return;
    }
    SameSettingsIff(q1.config, q2.config);
    SameFieldsIff(q1.contributions, q2.contributions);
  }

  lemma SameSettingsIff(c1: Fields, c2: Fields)
    ensures SameOn(c1, c2, key => key in IDENTITY_KEYS || key in RUNTIME_KEYS || IsPruningKey(key))
       <==> forall key :: IsListedSetting(key) ==> (key in c1 <==> key in c2) && (key in c1 ==> c1[key] == c2[key])
  {
    assert forall key :: IsListedSetting(key) <==> key in IDENTITY_KEYS || key in RUNTIME_KEYS || IsPruningKey(key);
  }

  lemma SameFieldsIff(xs: seq<Fields>, ys: seq<Fields>)
    requires |xs| == |ys|
    ensures (forall i, key :: 0 <= i < |xs| && key in CONTRIBUTION_KEYS ==> Get(xs[i], key) == Get(ys[i], key))
       <==> forall i, key :: 0 <= i < |xs| && IsListedField(key) ==> Field(xs[i], key) == Field(ys[i], key)
  {
    assert forall key :: IsListedField(key) <==> key in CONTRIBUTION_KEYS;
    assert forall c, key :: Get(c, key) == Field(c, key);
  }

  /** What json.dumps cannot write: a value that is no JSON value, or an integer beyond Python's limit. */
  predicate IsUnwritable(d: Datum) {
    match d
    case Foreign(_) => true
    case Plain(v) => !Convertible(v)
  }

  /** A request has no fingerprint exactly when something that is listed cannot be written. */
  lemma NoFingerprintIff(q: Request)
    ensures Fingerprint(q).None?
       <==> || IsUnwritable(q.pressure) || IsUnwritable(q.threshold)
            || (exists key :: key in q.config && IsListedSetting(key) && IsUnwritable(q.config[key]))
            || exists i, key :: 0 <= i < |q.contributions| && IsListedField(key) && IsUnwritable(Field(q.contributions[i], key))
  {
    var p := Payload(q);
    assert forall key :: IsListedSetting(key) <==> key in IDENTITY_KEYS || key in RUNTIME_KEYS || IsPruningKey(key);
    assert forall key :: IsListedField(key) <==> key in CONTRIBUTION_KEYS;
    assert forall d: Datum :: Encodable(d) <==> !IsUnwritable(d);
    SettingsEncodable(q);
    RowsEncodable(q);
  }

  lemma SettingsEncodable(q: Request)
    ensures var p := Payload(q);
            AllEncodable(p.identity) && AllEncodable(p.runtime) && AllEncodable(p.config)
            <==> forall key :: key in q.config && (key in IDENTITY_KEYS || key in RUNTIME_KEYS || IsPruningKey(key)) ==>
                   Encodable(q.config[key])
  {
    var p := Payload(q);
    if AllEncodable(p.identity) && AllEncodable(p.runtime) && AllEncodable(p.config) {
      forall key | key in q.config && (key in IDENTITY_KEYS || key in RUNTIME_KEYS || IsPruningKey(key))
        ensures Encodable(q.config[key])
      {
        assert key in IDENTITY_KEYS ==> key in p.identity;
        assert key in RUNTIME_KEYS ==> key in p.runtime;
        assert IsPruningKey(key) ==> key in p.config;
      }
    }
  }

  lemma RowsEncodable(q: Request)
    ensures var p := Payload(q);
            (forall i :: 0 <= i < |p.rows| ==> AllEncodable(p.rows[i]))
            <==> forall i, key :: 0 <= i < |q.contributions| && key in CONTRIBUTION_KEYS ==>
                   Encodable(Field(q.contributions[i], key))
  {
    var p := Payload(q);
    forall i | 0 <= i < |q.contributions|
      ensures AllEncodable(p.rows[i]) <==> forall key :: key in CONTRIBUTION_KEYS ==> Encodable(Field(q.contributions[i], key))
    {
      assert p.rows[i] == Row(q.contributions[i]);
      assert forall key :: key in CONTRIBUTION_KEYS ==> p.rows[i][key] == Field(q.contributions[i], key);
    }
  }

  lemma SameEntry(m1: Fields, m2: Fields, key: string)
    requires m1 == m2
    ensures (key in m1 <==> key in m2) && (key in m1 ==> m1[key] == m2[key])
  {
  }

  /** Changing one field of one contribution changes the payload exactly when the field is fingerprinted and differs. */
  lemma FieldChangesPayloadIff(q: Request, i: nat, key: string, d: Datum)
    requires i < |q.contributions|
    ensures Payload(WithField(q, i, key, d)) == Payload(q)
       <==> key !in CONTRIBUTION_KEYS || Get(q.contributions[i], key) == d
  {
    var c := q.contributions[i];
    if key in CONTRIBUTION_KEYS {
      assert Payload(WithField(q, i, key, d)).rows[i][key] == d;
      assert Payload(q).rows[i][key] == Get(c, key);
    }
    if key !in CONTRIBUTION_KEYS || Get(c, key) == d {
      assert Row(c[key := d]) == Row(c);
      assert Payload(WithField(q, i, key, d)).rows == Payload(q).rows;
    }
  }

  function WithField(q: Request, i: nat, key: string, d: Datum): Request
    requires i < |q.contributions|
  {
    q.(contributions := q.contributions[i := q.contributions[i][key := d]])
  }

  // ---- runs ----

  /** The answers of a run from an empty memo, the keys that it used in order, and the store afterwards. */
  datatype Trace = Trace(answers: seq<Option<Tree>>, touched: seq<Key>, cache: Cache)

  predicate Storable(direct: Option<Tree>) {
    direct.Some? && Copyable(direct.value)
  }

  predicate Touches(cache: Cache, key: Option<Key>, direct: Option<Tree>) {
    key.Some? && (Lookup(cache, key.value).Some? || Storable(direct))
  }

  /** A request, and what computing would return at the time of the call. */
  datatype Call = Call(request: Request, direct: Option<Tree>) {
    function Key(): Option<Key> {
      Fingerprint(request)
    }
  }

  /** Call after call, from any store. */
  function Replay(maxEntries: int, start: Cache, calls: seq<Call>): (t: Trace)
    ensures |t.answers| == |calls|
  {
    if calls == [] then Trace([], [], start)
    else
      var call := calls[|calls| - 1];
      var t := Replay(maxEntries, start, calls[..|calls| - 1]);
      var (answer, cache) := Step(maxEntries, t.cache, call.Key(), call.direct);
      Trace(t.answers + [answer],
            t.touched + if Touches(t.cache, call.Key(), call.direct) then [call.Key().value] else [],
            cache)
  }

  lemma ReplayStep(maxEntries: int, start: Cache, calls: seq<Call>, call: Call)
    ensures var t, u := Replay(maxEntries, start, calls), Replay(maxEntries, start, calls + [call]);
            var (answer, cache) := Step(maxEntries, t.cache, call.Key(), call.direct);
            u.answers == t.answers + [answer] && u.cache == cache
  {
    assert (calls + [call])[..|calls|] == calls;
  }

  function CallsOf(compute: Request -> Option<Tree>, qs: seq<Request>): seq<Call> {
    seq(|qs|, i requires 0 <= i < |qs| => Call(qs[i], compute(qs[i])))
  }

  /** A run from the empty store in which `compute` gives what each request would compute. */
  function Run(maxEntries: int, compute: Request -> Option<Tree>, qs: seq<Request>): (t: Trace)
    ensures |t.answers| == |qs|
  {
    Replay(maxEntries, [], CallsOf(compute, qs))
  }

  lemma RunStep(maxEntries: int, compute: Request -> Option<Tree>, qs: seq<Request>, q: Request)
    ensures var t, u := Run(maxEntries, compute, qs), Run(maxEntries, compute, qs + [q]);
            var (answer, cache) := Step(maxEntries, t.cache, Fingerprint(q), compute(q));
            u.answers == t.answers + [answer] && u.cache == cache
  {
    assert CallsOf(compute, qs + [q]) == CallsOf(compute, qs) + [Call(q, compute(q))];
    ReplayStep(maxEntries, [], CallsOf(compute, qs), Call(q, compute(q)));
  }

  // ---- least recently used ----

  /** The distinct keys of a list in the order of their last occurrences. */
  function Recent(touched: seq<Key>): seq<Key> {
    if touched == [] then []
    else Remove(Recent(touched[..|touched| - 1]), touched[|touched| - 1]) + [touched[|touched| - 1]]
  }

  function LastUse(touched: seq<Key>, k: Key): int {
    if touched == [] then -1
    else if touched[|touched| - 1] == k then |touched| - 1
    else LastUse(touched[..|touched| - 1], k)
  }

  /** Later keys of a list were used later. */
  ghost predicate ByLastUse(order: seq<Key>, touched: seq<Key>) {
    forall i, j :: 0 <= i < j < |order| ==> LastUse(touched, order[i]) < LastUse(touched, order[j])
  }

  lemma {:induction false} LastUseBound(touched: seq<Key>, k: Key)
    ensures -1 <= LastUse(touched, k) < |touched| && (LastUse(touched, k) >= 0 <==> k in touched)
  {
    if touched != [] {
      var front := touched[..|touched| - 1];
      LastUseBound(front, k);
      assert touched == front + [touched[|touched| - 1]];
    }
  }

  lemma {:induction false} RemoveKeepsOrder(order: seq<Key>, k: Key, touched: seq<Key>)
    requires ByLastUse(order, touched)
    ensures ByLastUse(Remove(order, k), touched)
    ensures forall x :: x in Remove(order, k) <==> x in order && x != k
  {
    if order != [] {
      var rest := Remove(order[1..], k);
      assert ByLastUse(order[1..], touched);
      RemoveKeepsOrder(order[1..], k, touched);
      assert forall x :: x in order <==> x == order[0] || x in order[1..];
      forall j | 0 <= j < |rest|
        ensures LastUse(touched, order[0]) < LastUse(touched, rest[j])
      {
        assert rest[j] in order[1..];
      }
    }
  }

  /** Recent lists exactly the keys that were used, without duplicates, by their last use. */
  lemma {:induction false} RecentIsByLastUse(touched: seq<Key>)
    ensures NoDuplicates(Recent(touched)) && ByLastUse(Recent(touched), touched)
    ensures forall x :: x in Recent(touched) <==> x in touched
  {
    if touched != [] {
      var front, k := touched[..|touched| - 1], touched[|touched| - 1];
      RecentIsByLastUse(front);
      RemoveKeepsOrder(Recent(front), k, front);
      var rest := Remove(Recent(front), k);
      assert touched == front + [k];
      forall j | 0 <= j < |rest|
        ensures LastUse(touched, rest[j]) == LastUse(front, rest[j]) < |touched| - 1
      {
        assert rest[j] in rest;
        LastUseBound(front, rest[j]);
      }
      assert LastUse(touched, k) == |touched| - 1;
    }
  }

  function Keys(cache: Cache): (keys: seq<Key>)
    ensures |keys| == |cache|
  {
    seq(|cache|, i requires 0 <= i < |cache| => cache[i].0)
  }

  lemma {:induction false} LookupKeys(cache: Cache, k: Key)
    ensures Lookup(cache, k).Some? <==> k in Keys(cache)
  {
    if cache != [] {
      LookupKeys(cache[1..], k);
      assert Keys(cache) == [cache[0].0] + Keys(cache[1..]);
    }
  }

  lemma {:induction false} WithoutKeys(cache: Cache, k: Key)
    ensures Keys(Without(cache, k)) == Remove(Keys(cache), k)
  {
    if cache != [] {
      WithoutKeys(cache[1..], k);
      assert Keys(cache)[1..] == Keys(cache[1..]);
      assert Keys(Without(cache, k)) == (if cache[0].0 == k then [] else [cache[0].0]) + Keys(Without(cache[1..], k));
    }
  }

  lemma {:induction false} RemoveConcat(a: seq<Key>, b: seq<Key>, k: Key)
    ensures Remove(a + b, k) == Remove(a, k) + Remove(b, k)
  {
    if a == [] {
      assert a + b == b;
    } else {
      assert (a + b)[1..] == a[1..] + b;
      RemoveConcat(a[1..], b, k);
    }
  }

  lemma {:induction false} RemoveAbsent(order: seq<Key>, k: Key)
    requires k !in order
    ensures Remove(order, k) == order
  {
    if order != [] {
      RemoveAbsent(order[1..], k);
    }
  }

  lemma {:induction false} RemoveLength(order: seq<Key>, k: Key)
    requires NoDuplicates(order) && k in order
    ensures |Remove(order, k)| == |order| - 1
  {
    if order[0] == k {
      RemoveAbsent(order[1..], k);
    } else {
      RemoveLength(order[1..], k);
    }
  }

  /** Using a key in the list of the newest n gives the newest n of the list after the use. */
  lemma NewestUse(all: seq<Key>, n: nat, k: Key)
    requires NoDuplicates(all) && n > 0
    ensures Newest(Remove(all, k) + [k], n)
         == if k in Newest(all, n) then Remove(Newest(all, n), k) + [k] else Newest(Newest(all, n) + [k], n)
  {
    var kept := Newest(all, n);
    var dropped := all[..|all| - |kept|];
    assert all == dropped + kept;
    if k in kept {
      NewestUseKept(dropped, kept, n, k);
    } else {
      NewestUseOther(dropped, kept, n, k);
    }
  }

  lemma NewestUseKept(dropped: seq<Key>, kept: seq<Key>, n: nat, k: Key)
    requires NoDuplicates(dropped + kept) && k in kept && |kept| <= n && (dropped == [] || |kept| == n)
    ensures Newest(Remove(dropped + kept, k) + [k], n) == Remove(kept, k) + [k]
  {
    DisjointParts(dropped, kept, k);
    RemoveConcat(dropped, kept, k);
    RemoveAbsent(dropped, k);
    RemoveLength(kept, k);
    assert Remove(dropped + kept, k) + [k] == dropped + (Remove(kept, k) + [k]);
    NewestOfConcat(dropped, Remove(kept, k) + [k], n);
  }

  lemma DisjointParts(a: seq<Key>, b: seq<Key>, k: Key)
    requires NoDuplicates(a + b) && k in b
    ensures k !in a && NoDuplicates(b)
  {
    var all := a + b;
    assert forall i :: 0 <= i < |b| ==> b[i] == all[|a| + i];
    assert forall i :: 0 <= i < |a| ==> a[i] == all[i];
  }

  lemma NewestUseOther(dropped: seq<Key>, kept: seq<Key>, n: nat, k: Key)
    requires k !in kept && |kept| <= n && (dropped == [] || |kept| == n)
    ensures Newest(Remove(dropped + kept, k) + [k], n) == Newest(kept + [k], n)
  {
    RemoveConcat(dropped, kept, k);
    RemoveAbsent(kept, k);
    assert Remove(dropped + kept, k) + [k] == Remove(dropped, k) + (kept + [k]);
    NewestOfConcat(Remove(dropped, k), kept + [k], n);
  }

  lemma NewestOfConcat(a: seq<Key>, b: seq<Key>, n: nat)
    requires |b| >= n || a == []
    ensures Newest(a + b, n) == Newest(b, n)
  {
    if a == [] {
      assert a + b == b;
    } else {
      assert (a + b)[|a| + |b| - n..] == b[|b| - n..];
    }
  }

  /** After any calls the memo holds exactly the most recently used keys, as many as fit, in the order of their last use. */
  lemma {:induction false} HoldsMostRecent(maxEntries: int, calls: seq<Call>)
    ensures var t, capacity := Replay(maxEntries, [], calls), if maxEntries < 1 then 1 else maxEntries;
            Keys(t.cache) == Newest(Recent(t.touched), capacity) && |t.cache| <= capacity
  {
    if calls != [] {
      var front, call := calls[..|calls| - 1], calls[|calls| - 1];
      HoldsMostRecent(maxEntries, front);
      StepHoldsMostRecent(maxEntries, Replay(maxEntries, [], front), call.Key(), call.direct);
    }
  }

  lemma StepHoldsMostRecent(maxEntries: int, t: Trace, key: Option<Key>, direct: Option<Tree>)
    requires Keys(t.cache) == Newest(Recent(t.touched), Capacity(maxEntries))
    ensures var cache := Step(maxEntries, t.cache, key, direct).1;
            var touched := t.touched + if Touches(t.cache, key, direct) then [key.value] else [];
            Keys(cache) == Newest(Recent(touched), Capacity(maxEntries))
  {
    if Touches(t.cache, key, direct) {
      var k, n := key.value, Capacity(maxEntries);
      var touched := t.touched + [k];
      assert touched[..|touched| - 1] == t.touched;
      RecentIsByLastUse(t.touched);
      NewestUse(Recent(t.touched), n, k);
      LookupKeys(t.cache, k);
      StepKeys(maxEntries, t.cache, k, direct);
    } else {
      assert t.touched + [] == t.touched;
    }
  }

  lemma StepKeys(maxEntries: int, cache: Cache, k: Key, direct: Option<Tree>)
    requires Touches(cache, Some(k), direct)
    ensures Keys(Step(maxEntries, cache, Some(k), direct).1)
         == if Lookup(cache, k).Some? then Remove(Keys(cache), k) + [k] else Newest(Keys(cache) + [k], Capacity(maxEntries))
  {
    if Lookup(cache, k).Some? {
      WithoutKeys(cache, k);
      KeysAppend(Without(cache, k), (k, Lookup(cache, k).value));
    } else {
      KeysAppend(cache, (k, direct.value));
      KeysNewest(cache + [(k, direct.value)], Capacity(maxEntries));
    }
  }

  lemma KeysAppend(cache: Cache, entry: (Key, Tree))
    ensures Keys(cache + [entry]) == Keys(cache) + [entry.0]
  {
  }

  lemma KeysNewest(cache: Cache, n: nat)
    ensures Keys(Newest(cache, n)) == Newest(Keys(cache), n)
  {
  }

  // ---- transparency ----

  /** Requests with one fingerprint compute one result, as far as results can be stored. */
  ghost predicate Respects(compute: Request -> Option<Tree>) {
    forall q1, q2 :: Fingerprint(q1).Some? && Fingerprint(q1) == Fingerprint(q2) && Storable(compute(q1)) ==>
      compute(q2) == compute(q1)
  }

  /** Over every sequence of calls the memo answers what computing would answer. */
  ghost predicate Transparent(maxEntries: int, compute: Request -> Option<Tree>) {
    forall qs: seq<Request>, i :: 0 <= i < |qs| ==> Run(maxEntries, compute, qs).answers[i] == compute(qs[i])
  }

  ghost predicate CacheAgrees(cache: Cache, compute: Request -> Option<Tree>) {
    forall i, q :: 0 <= i < |cache| && Fingerprint(q) == Some(cache[i].0) ==> compute(q) == Some(cache[i].1)
  }

  lemma {:induction false} LookupAgrees(cache: Cache, compute: Request -> Option<Tree>, q: Request)
    requires CacheAgrees(cache, compute) && Fingerprint(q).Some?
    ensures var found := Lookup(cache, Fingerprint(q).value); found.Some? ==> found == compute(q)
  {
    if cache != [] {
      assert CacheAgrees(cache[1..], compute);
      LookupAgrees(cache[1..], compute, q);
    }
  }

  lemma {:induction false} WithoutAgrees(cache: Cache, compute: Request -> Option<Tree>, k: Key)
    requires CacheAgrees(cache, compute)
    ensures CacheAgrees(Without(cache, k), compute)
  {
    if cache != [] {
      assert CacheAgrees(cache[1..], compute);
      WithoutAgrees(cache[1..], compute, k);
    }
  }

  lemma {:induction false} LookupStored(cache: Cache, compute: Request -> Option<Tree>, k: Key, q: Request)
    requires CacheAgrees(cache, compute) && Lookup(cache, k).Some? && Fingerprint(q) == Some(k)
    ensures compute(q) == Lookup(cache, k)
  {
    LookupAgrees(cache, compute, q);
  }

  lemma StepAgrees(maxEntries: int, cache: Cache, compute: Request -> Option<Tree>, q: Request)
    requires Respects(compute) && CacheAgrees(cache, compute)
    ensures var (answer, after) := Step(maxEntries, cache, Fingerprint(q), compute(q));
            answer == compute(q) && CacheAgrees(after, compute)
  {
    var key, direct := Fingerprint(q), compute(q);
    if key.Some? {
      LookupAgrees(cache, compute, q);
      var last := if Lookup(cache, key.value).Some? then Lookup(cache, key.value) else direct;
      if last.Some? {
        var before := if Lookup(cache, key.value).Some? then Without(cache, key.value) else cache;
        WithoutAgrees(cache, compute, key.value);
        if Lookup(cache, key.value).Some? || Storable(direct) {
          forall p | Fingerprint(p) == key
            ensures compute(p) == last
          {
            if Lookup(cache, key.value).Some? {
              LookupStored(cache, compute, key.value, p);
            }
          }
          assert CacheAgrees(before + [(key.value, last.value)], compute);
        }
      }
    }
  }

  lemma {:induction false} RunAgrees(maxEntries: int, compute: Request -> Option<Tree>, qs: seq<Request>)
    requires Respects(compute)
    ensures var t := Run(maxEntries, compute, qs);
            CacheAgrees(t.cache, compute) && forall i :: 0 <= i < |qs| ==> t.answers[i] == compute(qs[i])
  {
    if qs != [] {
      var front, q := qs[..|qs| - 1], qs[|qs| - 1];
      assert qs == front + [q];
      RunAgrees(maxEntries, compute, front);
      RunStep(maxEntries, compute, front, q);
      StepAgrees(maxEntries, Run(maxEntries, compute, front).cache, compute, q);
    }
  }

  /** The second of two calls with one fingerprint gets the first one's result, whatever it would compute itself. */
  lemma SecondCallHits(maxEntries: int, compute: Request -> Option<Tree>, q1: Request, q2: Request)
    requires Fingerprint(q1).Some? && Fingerprint(q1) == Fingerprint(q2) && Storable(compute(q1))
    ensures Run(maxEntries, compute, [q1, q2]).answers[1] == compute(q1)
  {
    var k, first := Fingerprint(q1).value, compute(q1);
    RunStep(maxEntries, compute, [], q1);
    RunStep(maxEntries, compute, [q1], q2);
    assert [] + [q1] == [q1] && [q1] + [q2] == [q1, q2];
    assert Run(maxEntries, compute, []) == Trace([], [], []);
    StepStores(maxEntries, [], k, first);
  }

  /** The memo is transparent exactly when computing respects the fingerprint, whatever the capacity. */
  lemma TransparentIff(maxEntries: int, compute: Request -> Option<Tree>)
    ensures Transparent(maxEntries, compute) <==> Respects(compute)
  {
    if Respects(compute) {
      forall qs: seq<Request>, i | 0 <= i < |qs|
        ensures Run(maxEntries, compute, qs).answers[i] == compute(qs[i])
      {
        RunAgrees(maxEntries, compute, qs);
      }
    }
    if Transparent(maxEntries, compute) {
      forall q1, q2 | Fingerprint(q1).Some? && Fingerprint(q1) == Fingerprint(q2) && Storable(compute(q1))
        ensures compute(q2) == compute(q1)
      {
        SecondCallHits(maxEntries, compute, q1, q2);
        assert [q1, q2][1] == q2;
      }
    }
  }

  /** So a computation that looks at a field outside the fingerprint, such as cache_scope or content, gets stale answers. */
  lemma UnfingerprintedFieldMakesStale(maxEntries: int, compute: Request -> Option<Tree>, q: Request, i: nat, key: string,
                                       d: Datum)
    requires i < |q.contributions| && key !in CONTRIBUTION_KEYS && Fingerprint(q).Some? && Storable(compute(q))
    requires compute(WithField(q, i, key, d)) != compute(q)
    ensures Run(maxEntries, compute, [q, WithField(q, i, key, d)]).answers[1] != compute(WithField(q, i, key, d))
    ensures !Transparent(maxEntries, compute)
  {
    FieldChangesPayloadIff(q, i, key, d);
    SecondCallHits(maxEntries, compute, q, WithField(q, i, key, d));
    TransparentIff(maxEntries, compute);
  }

  // ---- what can be copied ----

  /** What stands at the end of a path of positions. */
  function PartAt(t: Tree, path: seq<nat>): Option<Tree>
    decreases |path|
  {
    if path == [] then Some(t)
    else if t.Branch? && path[0] < |t.entries| then PartAt(t.entries[path[0]].1, path[1..])
    else None
  }

  /** A result can be copied exactly when nothing at any depth is a foreign object. */
  lemma {:induction false} CopyableIff(t: Tree)
    ensures Copyable(t) <==> forall path, tag :: PartAt(t, path) != Some(Leaf(Foreign(tag)))
    decreases t
  {
    match t
    case Leaf(d) =>
      if d.Foreign? {
        assert PartAt(t, []) == Some(Leaf(Foreign(d.tag)));
      }
    case Branch(kind, entries) =>
      forall i | 0 <= i < |entries|
        ensures Copyable(entries[i].1) <==> forall path, tag :: PartAt(entries[i].1, path) != Some(Leaf(Foreign(tag)))
      {
        CopyableIff(entries[i].1);
      }
      if i, path, tag :| 0 <= i < |entries| && PartAt(entries[i].1, path) == Some(Leaf(Foreign(tag))) {
        assert ([i] + path)[1..] == path;
        assert PartAt(t, [i] + path) == Some(Leaf(Foreign(tag)));
      }
      if path, tag :| PartAt(t, path) == Some(Leaf(Foreign(tag))) {
        assert PartAt(entries[path[0]].1, path[1..]) == Some(Leaf(Foreign(tag)));
      }
  }

  // ---- results on the heap ----

  /** A new result that holds this tree. */
  method Build(t: Tree) returns (slot: Slot, ghost inside: set<Node>)
    ensures fresh(inside) && Shows(slot, t, inside) && (t.Branch? ==> slot.Child?)
    decreases t
  {
    inside := {};
    match t
    case Leaf(d) =>
      slot := Scalar(d);
    case Branch(kind, entries) =>
      var slots: seq<(string, Slot)> := [];
      for i := 0 to |entries|
        invariant |slots| == i && fresh(inside) && ShowAll(slots, entries, i, inside)
      {
        var element, nodes := Build(entries[i].1);
        ShowsOneMore(slots, entries, inside, element, nodes);
        slots, inside := slots + [(entries[i].0, element)], inside + nodes;
      }
      slot, inside := Wrap(kind, slots, entries, inside);
  }

  /** A callback that will return a new result that holds this tree. */
  method Prepare(direct: Option<Tree>) returns (compute: Computation)
    requires direct.Some? ==> direct.value.Branch?
    ensures fresh(compute) && fresh(compute.reach) && !compute.called && compute.Direct() == direct
    ensures compute.outcome != null ==> Shows(Child(compute.outcome), compute.tree, compute.reach)
  {
    if direct.None? {
      compute := new Computation(null, Branch(Dict, []), {});
    } else {
      var slot, nodes := Build(direct.value);
      compute := new Computation(slot.node, direct.value, nodes);
    }
  }

  /** Whatever callers write into results that they were given. */
  method Overwrite(ghost handed: set<Node>)
    modifies handed
  {
    modify handed;
  }

  /** A call whose callback returns a new result. */
  method CallAnew(memo: PruningMemo, call: Call) returns (ghost answer: Option<Tree>, ghost reach: set<Node>)
    requires memo.Valid() && (call.direct.Some? ==> call.direct.value.Branch?)
    modifies memo
    ensures memo.Valid() && memo.maxEntries == old(memo.maxEntries)
    ensures fresh(reach) && reach !! memo.footprint && fresh(memo.footprint - old(memo.footprint))
    ensures (answer, memo.Contents()) == Step(memo.maxEntries, old(memo.Contents()), call.Key(), call.direct)
  {
    var compute := Prepare(call.direct);
    var r, t, nodes := memo.ReuseOrCompute(call.request, compute);
    answer := if r == null then None else Some(t);
    reach := if r == null then {} else nodes;
  }

  /** A call, after which callers write whatever they like into every result that was ever handed out. */
  method CallWithWrites(memo: PruningMemo, call: Call, ghost handed: set<Node>)
    returns (ghost answer: Option<Tree>, ghost more: set<Node>)
    requires memo.Valid() && handed !! memo.footprint && (call.direct.Some? ==> call.direct.value.Branch?)
    modifies memo, handed
    ensures memo.Valid() && memo.maxEntries == old(memo.maxEntries)
    ensures more >= handed && fresh(more - handed) && more !! memo.footprint && fresh(memo.footprint - old(memo.footprint))
    ensures (answer, memo.Contents()) == Step(memo.maxEntries, old(memo.Contents()), call.Key(), call.direct)
  {
    ghost var reach: set<Node>;
    answer, reach := CallAnew(memo, call);
    more := handed + reach;
    Overwrite(more);
  }

  /** Over any sequence of calls, each followed by arbitrary writes to every result that was ever handed out, at any depth,
      the store and the answers are those of the plain sequence of steps. */
  method CallsWithWrites(memo: PruningMemo, calls: seq<Call>) returns (ghost answers: seq<Option<Tree>>, ghost handed: set<Node>)
    requires memo.Valid() && forall call :: call in calls && call.direct.Some? ==> call.direct.value.Branch?
    modifies memo
    ensures memo.Valid() && memo.maxEntries == old(memo.maxEntries)
    ensures fresh(handed) && handed !! memo.footprint && fresh(memo.footprint - old(memo.footprint))
    ensures var t := Replay(memo.maxEntries, old(memo.Contents()), calls);
            memo.Contents() == t.cache && answers == t.answers
  {
    answers, handed := [], {};
    for i := 0 to |calls|
      invariant memo.Valid() && memo.maxEntries == old(memo.maxEntries)
      invariant fresh(handed) && handed !! memo.footprint && fresh(memo.footprint - old(memo.footprint))
      invariant Reached(Replay(memo.maxEntries, old(memo.Contents()), calls[..i]), memo.Contents(), answers)
    {
      ghost var before := memo.Contents();
      var answer, more := CallWithWrites(memo, calls[i], handed);
      ReachedNext(memo.maxEntries, old(memo.Contents()), calls, i, before, answers, memo.Contents(), answer);
      answers, handed := answers + [answer], more;
    }
    assert calls[..|calls|] == calls;
  }

  ghost predicate Reached(t: Trace, cache: Cache, answers: seq<Option<Tree>>) {
    t.cache == cache && t.answers == answers
  }

  lemma ReachedNext(maxEntries: int, start: Cache, calls: seq<Call>, i: nat, cache: Cache, answers: seq<Option<Tree>>,
                    after: Cache, answer: Option<Tree>)
    requires i < |calls| && Reached(Replay(maxEntries, start, calls[..i]), cache, answers)
    requires (answer, after) == Step(maxEntries, cache, calls[i].Key(), calls[i].direct)
    ensures Reached(Replay(maxEntries, start, calls[..i + 1]), after, answers + [answer])
  {
    ReplayStep(maxEntries, start, calls[..i], calls[i]);
    assert calls[..i + 1] == calls[..i] + [calls[i]];
  }

  /** In particular, what a caller does to a result it was given does not show in a later hit. */
  method HitAfterMutation(memo: PruningMemo, q: Request, first: Tree, second: Computation)
    returns (ghost given: Option<Tree>, later: Node?, ghost t: Tree, ghost reach: set<Node>)
    requires memo.Valid() && first.Branch? && Copyable(first) && Fingerprint(q).Some?
    requires second.IsOutside(memo.footprint) && !second.called
    modifies memo, second
    ensures later != null && Shows(Child(later), t, reach) && given == Some(t) && !second.called
  {
    var call := Call(q, Some(first));
    ReplayStep(memo.maxEntries, memo.Contents(), [], call);
    assert [] + [call] == [call];
    StepStores(memo.maxEntries, memo.Contents(), Fingerprint(q).value, Some(first));
    ghost var answers, handed := CallsWithWrites(memo, [call]);
    given := answers[0];
    LookupSnapshot(memo.order, memo.trees, Fingerprint(q).value);
    later, t, reach := memo.ReuseOrCompute(q, second);
  }

  lemma {:induction false} LookupConcat(a: Cache, b: Cache, k: Key)
    ensures Lookup(a + b, k) == if Lookup(a, k).Some? then Lookup(a, k) else Lookup(b, k)
  {
    if a == [] {
      assert a + b == b;
    } else {
      assert (a + b)[1..] == a[1..] + b;
      LookupConcat(a[1..], b, k);
    }
  }

  /** A call whose result can be stored leaves its answer in the memo. */
  lemma StepStores(maxEntries: int, cache: Cache, k: Key, direct: Option<Tree>)
    requires Storable(direct)
    ensures var (answer, after) := Step(maxEntries, cache, Some(k), direct);
            answer.Some? && Lookup(after, k) == answer
  {
    var (answer, after) := Step(maxEntries, cache, Some(k), direct);
    if Lookup(cache, k).Some? {
      LookupWithout(cache, k);
      LookupConcat(Without(cache, k), [(k, answer.value)], k);
    } else {
      var all := cache + [(k, direct.value)];
      assert after == all[|all| - |after|..|cache|] + [(k, direct.value)];
      LookupPart(cache, |all| - |after|, k);
      LookupConcat(all[|all| - |after|..|cache|], [(k, direct.value)], k);
    }
    assert Lookup([(k, answer.value)], k) == answer;
  }

  lemma {:induction false} LookupWithout(cache: Cache, k: Key)
    ensures Lookup(Without(cache, k), k).None?
  {
    if cache != [] {
      LookupWithout(cache[1..], k);
      if cache[0].0 == k {
        assert Without(cache, k) == Without(cache[1..], k);
      } else {
        assert Without(cache, k)[1..] == Without(cache[1..], k);
      }
    }
  }

  lemma {:induction false} LookupPart(cache: Cache, n: nat, k: Key)
    requires n <= |cache| && Lookup(cache, k).None?
    ensures Lookup(cache[n..], k).None?
  {
    if n > 0 {
      LookupPart(cache[1..], n - 1, k);
      assert cache[1..][n - 1..] == cache[n..];
    }
  }
}
