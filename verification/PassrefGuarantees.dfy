/** What the rewriting of handles and the expansion budget guarantee. */
module PassrefGuarantees {
  import opened Prelude
  import opened Json
  import opened Passref

  // ---- replacing handles ----

  /** The characters that a handle can hold. */
  predicate InHandle(c: int) {
    c == 't' as int || c == 'l' as int || c == ':' as int || IsLowerHex(c)
  }

  lemma HandleCharacters(t: Text, i: nat, k: nat)
    requires HandleAt(t, i) && k < HANDLE_LENGTH
    ensures InHandle(t[i + k])
  {
    if k >= 4 {
      assert t[i + k] == t[i + 4..i + HANDLE_LENGTH][k - 4];
    }
  }

  lemma SliceOfSlice(t: Text, lo: nat, hi: nat, a: nat, b: nat)
    requires lo <= hi <= |t| && a <= b <= hi - lo
    ensures t[lo..hi][a..b] == t[lo + a..lo + b]
  {
    assert |t[lo..hi][a..b]| == |t[lo + a..lo + b]|;
    forall n | 0 <= n < b - a
      ensures t[lo..hi][a..b][n] == t[lo + a..lo + b][n]
    {
      assert t[lo..hi][a + n] == t[lo + (a + n)];
    }
  }

  lemma HandleInSlice(t: Text, lo: nat, hi: nat, k: nat)
    requires lo <= hi <= |t| && k <= hi - lo
    ensures HandleAt(t[lo..hi], k) <==> lo + k + HANDLE_LENGTH <= hi && HandleAt(t, lo + k)
  {
    if lo + k + HANDLE_LENGTH <= hi {
      SliceOfSlice(t, lo, hi, k + 4, k + HANDLE_LENGTH);
    }
  }

  lemma PartHasHandle(t: Text, lo: nat, hi: nat)
    requires lo <= hi <= |t| && TextHasHandle(t[lo..hi])
    ensures TextHasHandle(t)
  {
    HandleInSlice(t, lo, hi, FindFrom(t[lo..hi], 0));
  }

  /** A handle lies on one side of a character that handles do not hold. */
  lemma OneSide(t: Text, m: nat)
    requires m < |t| && !InHandle(t[m]) && TextHasHandle(t)
    ensures TextHasHandle(t[0..m]) || TextHasHandle(t[m + 1..|t|])
  {
    var k := FindFrom(t, 0);
    if k <= m < k + HANDLE_LENGTH {
      HandleCharacters(t, k, m - k);
    } else if k < m {
      HandleInSlice(t, 0, m, k);
    } else {
      HandleInSlice(t, m + 1, |t|, k - m - 1);
    }
  }

  /** No handle reaches across a character that handles do not hold. */
  lemma Barrier(a: Text, c: int, b: Text)
    requires !InHandle(c)
    ensures TextHasHandle(a + ([c] + b)) <==> TextHasHandle(a) || TextHasHandle(b)
  {
    var t, m := Around(a, c, b);
    if TextHasHandle(a) {
      PartHasHandle(t, 0, m);
    }
    if TextHasHandle(b) {
      PartHasHandle(t, m + 1, |t|);
    }
    if TextHasHandle(t) {
      OneSide(t, m);
    }
  }

  lemma Around(a: Text, c: int, b: Text) returns (t: Text, m: nat)
    ensures t == a + ([c] + b) && m < |t| && t[m] == c && a == t[0..m] && b == t[m + 1..|t|]
  {
    t, m := a + ([c] + b), |a|;
  }

  lemma NoHandleBetween(t: Text, i: nat, j: nat)
    requires i <= j <= |t| && forall k :: i <= k < j ==> !HandleAt(t, k)
    ensures !TextHasHandle(t[i..j])
  {
    if TextHasHandle(t[i..j]) {
      HandleInSlice(t, i, j, FindFrom(t[i..j], 0));
    }
  }

  /** A marker as the plugin writes them, between brackets. */
  predicate Bracketed(marker: Text) {
    |marker| >= 2 && marker[0] == OPEN_BRACKET && marker[|marker| - 1] == CLOSE_BRACKET
  }

  lemma BracketedBarrier(a: Text, marker: Text, b: Text)
    requires Bracketed(marker)
    ensures TextHasHandle(a + (marker + b)) <==> TextHasHandle(a) || TextHasHandle(marker) || TextHasHandle(b)
  {
    var inner := marker[1..|marker| - 1];
    assert marker + b == [OPEN_BRACKET] + (inner + ([CLOSE_BRACKET] + b));
    assert marker == [] + ([OPEN_BRACKET] + (inner + ([CLOSE_BRACKET] + [])));
    Barrier(a, OPEN_BRACKET, inner + ([CLOSE_BRACKET] + b));
    Barrier(inner, CLOSE_BRACKET, b);
    Barrier([], OPEN_BRACKET, inner + ([CLOSE_BRACKET] + []));
    Barrier(inner, CLOSE_BRACKET, []);
  }

  /** Replacing the matches from left to right leaves a handle only when the marker itself brings one in. */
  lemma {:induction false} SubLeavesHandle(t: Text, i: nat, marker: Text)
    requires i <= |t| && Bracketed(marker)
    ensures TextHasHandle(SubFrom(t, i, marker)) <==> FindFrom(t, i) < |t| && TextHasHandle(marker)
    decreases |t| - i
  {
    var j := FindFrom(t, i);
    NoHandleBetween(t, i, j);
    if j == |t| {
      assert t[i..j] == t[i..];
    } else {
      SubLeavesHandle(t, j + HANDLE_LENGTH, marker);
      BracketedBarrier(t[i..j], marker, SubFrom(t, j + HANDLE_LENGTH, marker));
    }
  }

  /** At any depth of a value: handles are left exactly when there were some and the marker holds one. */
  lemma {:induction false} ReplaceLeavesHandle(v: Value, marker: Text)
    requires Bracketed(marker)
    ensures HasHandle(ReplaceHandles(v, marker)) <==> HasHandle(v) && TextHasHandle(marker)
  {
    var w := ReplaceHandles(v, marker);
    match v
    case Str(text) => SubLeavesHandle(text, 0, marker);
    case Arr(items) =>
      forall k | 0 <= k < |items|
        ensures HasHandle(w.items[k]) <==> HasHandle(items[k]) && TextHasHandle(marker)
      {
        ReplaceLeavesHandle(items[k], marker);
      }
    case Obj(fields) =>
      forall k | 0 <= k < |fields|
        ensures HasHandle(w.fields[k].1) <==> HasHandle(fields[k].1) && TextHasHandle(marker)
      {
        ReplaceLeavesHandle(fields[k].1, marker);
      }
    case _ =>
  }

  /** Without the brackets the claim fails: twelve hexadecimal digits hold no handle, but complete one. */
  lemma PlainMarkerCanFormHandle()
    ensures var digits: Text := seq(12, _ => '0' as int);
            var t := HANDLE_PREFIX + (HANDLE_PREFIX + digits);
            !TextHasHandle(digits) && TextHasHandle(SubFrom(t, 0, digits))
  {
    var digits: Text := seq(12, _ => '0' as int);
    var t := HANDLE_PREFIX + (HANDLE_PREFIX + digits);
    assert t[8..20] == digits;
    assert !IsLowerHex(t[4..16][0]);
    assert !HandleAt(t, 0) && !HandleAt(t, 1) && !HandleAt(t, 2) && !HandleAt(t, 3);
    assert HandleAt(t, 4);
    assert FindFrom(t, 0) == 4;
    assert t[0..4] == HANDLE_PREFIX;
    assert FindFrom(t, 20) == 20;
    assert t[20..] == [];
    var r := SubFrom(t, 0, digits);
    assert SubFrom(t, 20, digits) == [];
    assert r == HANDLE_PREFIX + (digits + []);
    assert r[4..16] == digits;
    assert HandleAt(r, 0);
  }

  const HANDLE_PREFIX: Text := ['t' as int, 'l' as int, 'a' as int, ':' as int]

  /** `lits[0] seps[0] lits[1] … seps[n - 1] lits[n]`. */
  function Weave(lits: seq<Text>, seps: seq<Text>): Text
    requires |lits| == |seps| + 1
  {
    if seps == [] then lits[0] else lits[0] + (seps[0] + Weave(lits[1..], seps[1..]))
  }

  function Repeat(marker: Text, n: nat): (r: seq<Text>)
    ensures |r| == n
  {
    if n == 0 then [] else [marker] + Repeat(marker, n - 1)
  }

  lemma WeaveStep(lit: Text, sep: Text, lits: seq<Text>, seps: seq<Text>)
    requires |lits| == |seps| + 1
    ensures Weave([lit] + lits, [sep] + seps) == lit + (sep + Weave(lits, seps))
  {
    assert ([lit] + lits)[1..] == lits && ([sep] + seps)[1..] == seps;
  }

  lemma SplitAtHandle(t: Text, i: nat, j: nat)
    requires i <= j && HandleAt(t, j)
    ensures t[i..] == t[i..j] + (t[j..j + HANDLE_LENGTH] + t[j + HANDLE_LENGTH..])
    ensures HandleAt(t[j..j + HANDLE_LENGTH], 0)
  {
    HandleInSlice(t, j, j + HANDLE_LENGTH, 0);
  }

  /** Literals without a handle and the handles between them. */
  predicate Segments(lits: seq<Text>, handles: seq<Text>) {
    && |lits| == |handles| + 1
    && !TextHasHandle(lits[0])
    && (handles != [] ==>
          |handles[0]| == HANDLE_LENGTH && HandleAt(handles[0], 0) && Segments(lits[1..], handles[1..]))
  }

  lemma SegmentsStep(lit: Text, handle: Text, lits: seq<Text>, handles: seq<Text>)
    requires Segments(lits, handles) && !TextHasHandle(lit) && |handle| == HANDLE_LENGTH && HandleAt(handle, 0)
    ensures Segments([lit] + lits, [handle] + handles)
  {
    assert ([lit] + lits)[1..] == lits && ([handle] + handles)[1..] == handles;
  }

  lemma SegmentsOne(lit: Text, marker: Text)
    requires !TextHasHandle(lit)
    ensures Segments([lit], []) && Weave([lit], []) == lit && Weave([lit], Repeat(marker, 0)) == lit
  {
  }

  /** From the segments after the handle at `j` to those from `i` on. */
  lemma SegmentsExtend(t: Text, i: nat, j: nat, marker: Text, lits: seq<Text>, handles: seq<Text>)
    requires i <= j && HandleAt(t, j) && !TextHasHandle(t[i..j])
    requires Segments(lits, handles) && t[j + HANDLE_LENGTH..] == Weave(lits, handles)
    ensures var handle := t[j..j + HANDLE_LENGTH];
            && Segments([t[i..j]] + lits, [handle] + handles)
            && t[i..] == Weave([t[i..j]] + lits, [handle] + handles)
            && Weave([t[i..j]] + lits, Repeat(marker, |handles| + 1))
               == t[i..j] + (marker + Weave(lits, Repeat(marker, |handles|)))
  {
    var handle := t[j..j + HANDLE_LENGTH];
    SplitAtHandle(t, i, j);
    SegmentsStep(t[i..j], handle, lits, handles);
    WeaveStep(t[i..j], handle, lits, handles);
    WeaveStep(t[i..j], marker, lits, Repeat(marker, |handles|));
  }

  lemma ExactEnd(t: Text, i: nat, marker: Text) returns (lits: seq<Text>, handles: seq<Text>)
    requires i <= |t| && FindFrom(t, i) == |t|
    ensures Segments(lits, handles)
    ensures t[i..] == Weave(lits, handles) && SubFrom(t, i, marker) == Weave(lits, Repeat(marker, |handles|))
  {
    NoHandleBetween(t, i, |t|);
    assert t[i..|t|] == t[i..];
    SegmentsOne(t[i..], marker);
    lits, handles := [t[i..]], [];
  }

  lemma ExactStep(t: Text, i: nat, j: nat, marker: Text, rest: seq<Text>, more: seq<Text>)
    returns (lits: seq<Text>, handles: seq<Text>)
    requires i <= j < |t| && j == FindFrom(t, i) && Segments(rest, more) && t[j + HANDLE_LENGTH..] == Weave(rest, more)
    ensures Segments(lits, handles) && t[i..] == Weave(lits, handles)
    ensures Weave(lits, Repeat(marker, |handles|)) == t[i..j] + (marker + Weave(rest, Repeat(marker, |more|)))
  {
    NoHandleBetween(t, i, j);
    SegmentsExtend(t, i, j, marker, rest, more);
    lits, handles := [t[i..j]] + rest, [t[j..j + HANDLE_LENGTH]] + more;
  }

  /** Replacement is exact: the text is literals between handles, no literal holds a handle, and the result is the same
      literals between markers. */
  lemma {:induction false} SubIsExact(t: Text, i: nat, marker: Text) returns (lits: seq<Text>, handles: seq<Text>)
    requires i <= |t|
    ensures Segments(lits, handles)
    ensures t[i..] == Weave(lits, handles) && SubFrom(t, i, marker) == Weave(lits, Repeat(marker, |handles|))
    decreases |t| - i
  {
    var j := FindFrom(t, i);
    if j == |t| {
      lits, handles := ExactEnd(t, i, marker);
    } else {
      var rest, more := SubIsExact(t, j + HANDLE_LENGTH, marker);
      lits, handles := ExactStep(t, i, j, marker, rest, more);
    }
  }

  /** Replacing by one marker is the substitution whose callback always gives that marker. */
  lemma {:induction false} SubIsConstantCallback(t: Text, i: nat, marker: Text, a: Account)
    requires i <= |t|
    ensures var r := SubWith((id: Text, b: Account) => (Refused(id, marker), b), t, i, a);
            Spell(r.0) == SubFrom(t, i, marker) && r.1 == a
    decreases |t| - i
  {
    var f: Callback := (id: Text, b: Account) => (Refused(id, marker), b);
    var j := FindFrom(t, i);
    if j == |t| {
      SpellOne(Kept(t[i..]));
    } else {
      SubIsConstantCallback(t, j + HANDLE_LENGTH, marker, a);
      var rest := SubWith(f, t, j + HANDLE_LENGTH, a).0;
      SpellThen(t[i..j], Refused(HandleId(t, j), marker), rest);
    }
  }

  lemma SpellThen(text: Text, o: Out, outs: seq<Out>)
    ensures Spell([Kept(text), o] + outs) == text + (OutText(o) + Spell(outs))
  {
    var all := [Kept(text), o] + outs;
    assert all[1..] == [o] + outs && all[1..][1..] == outs;
  }

  /** The first match that the substitution replaces, what replaces it, and the substitution after it. */
  lemma SubStep(f: Callback, t: Text, i: nat, a: Account) returns (j: nat, o: Out, b: Account, rest: (seq<Out>, Account))
    requires i <= |t| && FindFrom(t, i) < |t|
    ensures i <= j && j + HANDLE_LENGTH <= |t| && HandleAt(t, j) && j == FindFrom(t, i)
    ensures (o, b) == f(HandleId(t, j), a) && rest == SubWith(f, t, j + HANDLE_LENGTH, b)
    ensures SubWith(f, t, i, a) == ([Kept(t[i..j]), o] + rest.0, rest.1)
  {
    j := FindFrom(t, i);
    o, b := f(HandleId(t, j), a).0, f(HandleId(t, j), a).1;
    rest := SubWith(f, t, j + HANDLE_LENGTH, b);
  }

  // ---- the budget ----

  /** Characters from blobs, what expansion charges (blob text and truncation markers), and the longest such marker. */
  datatype Cost = Cost(fromBlobs: nat, charged: nat, longestCut: nat)

  function Plus(x: Cost, y: Cost): Cost {
    Cost(x.fromBlobs + y.fromBlobs, x.charged + y.charged, if x.longestCut > y.longestCut then x.longestCut else y.longestCut)
  }

  function CostOf(o: Out): Cost {
    if o.Blob? then Cost(|o.content|, |o.content| + |o.cut|, |o.cut|) else Cost(0, 0, 0)
  }

  function TotalCost(outs: seq<Out>): Cost {
    if outs == [] then Cost(0, 0, 0) else Plus(CostOf(outs[0]), TotalCost(outs[1..]))
  }

  lemma {:induction false} CostConcat(a: seq<Out>, b: seq<Out>)
    ensures TotalCost(a + b) == Plus(TotalCost(a), TotalCost(b))
  {
    if a == [] {
      assert a + b == b;
    } else {
      assert (a + b)[1..] == a[1..] + b;
      CostConcat(a[1..], b);
      PlusAssociates(CostOf(a[0]), TotalCost(a[1..]), TotalCost(b));
    }
  }

  lemma PlusAssociates(x: Cost, y: Cost, z: Cost)
    ensures Plus(x, Plus(y, z)) == Plus(Plus(x, y), z)
  {
  }

  /** An expansion that starts from `a`, ends in `b` and costs `c` keeps to the limit. */
  predicate WithinBudget(limit: nat, a: Account, c: Cost, b: Account) {
    && c.fromBlobs <= c.charged
    && b.total == a.total + c.charged
    && c.fromBlobs <= (if a.total < limit then limit - a.total else 0)
    && (b.total <= a.total || b.total <= limit + c.longestCut)
  }

  lemma WithinBudgetPlus(limit: nat, a: Account, x: Cost, b: Account, y: Cost, c: Account)
    requires WithinBudget(limit, a, x, b) && WithinBudget(limit, b, y, c)
    ensures WithinBudget(limit, a, Plus(x, y), c)
  {
  }

  lemma ResolveWithinBudget(env: Env, id: Text, a: Account)
    ensures var (o, b) := Resolve(env, id, a); WithinBudget(env.config.totalMaxChars, a, CostOf(o), b)
  {
  }

  lemma CostOfPair(text: Text, o: Out, outs: seq<Out>)
    ensures TotalCost([Kept(text), o] + outs) == Plus(CostOf(o), TotalCost(outs))
  {
    var all := [Kept(text), o] + outs;
    assert all[1..] == [o] + outs && all[1..][1..] == outs;
  }

  lemma CostOfKept(text: Text)
    ensures TotalCost([Kept(text)]) == Cost(0, 0, 0)
  {
    assert [Kept(text)][1..] == [];
    assert TotalCost([]) == Cost(0, 0, 0);
  }

  ghost predicate CallbackWithinBudget(f: Callback, limit: nat) {
    forall id, a :: WithinBudget(limit, a, CostOf(f(id, a).0), f(id, a).1)
  }

  /** `r` is the substitution in `t` from `i` on. */
  lemma {:induction false} SubWithinBudget(f: Callback, limit: nat, t: Text, i: nat, a: Account, r: (seq<Out>, Account))
    requires i <= |t| && CallbackWithinBudget(f, limit) && r == SubWith(f, t, i, a)
    ensures WithinBudget(limit, a, TotalCost(r.0), r.1)
    decreases |t| - i
  {
    if FindFrom(t, i) == |t| {
      CostOfKept(t[i..]);
    } else {
      var j, o, b, rest := SubStep(f, t, i, a);
      SubWithinBudget(f, limit, t, j + HANDLE_LENGTH, b, rest);
      WithinBudgetThen(limit, a, t[i..j], o, b, rest);
    }
  }

  lemma WithinBudgetThen(limit: nat, a: Account, text: Text, o: Out, b: Account, rest: (seq<Out>, Account))
    requires WithinBudget(limit, a, CostOf(o), b) && WithinBudget(limit, b, TotalCost(rest.0), rest.1)
    ensures WithinBudget(limit, a, TotalCost([Kept(text), o] + rest.0), rest.1)
  {
    CostOfPair(text, o, rest.0);
    WithinBudgetPlus(limit, a, CostOf(o), b, TotalCost(rest.0), rest.1);
  }

  lemma TextWithinBudget(env: Env, t: Text, a: Account)
    ensures var (outs, b) := ExpandText(env, t, a); WithinBudget(env.config.totalMaxChars, a, TotalCost(outs), b)
  {
    var limit := env.config.totalMaxChars;
    forall id, a
      ensures WithinBudget(limit, a, CostOf(Replacer(env)(id, a).0), Replacer(env)(id, a).1)
    {
      ResolveWithinBudget(env, id, a);
    }
    if TextHasHandle(t) {
      SubWithinBudget(Replacer(env), limit, t, 0, a.(changed := true), SubWith(Replacer(env), t, 0, a.(changed := true)));
    } else {
      CostOfKept(t);
    }
  }

  /** Across nested arrays and objects. */
  lemma {:induction false} TreeWithinBudget(env: Env, v: Value, a: Account)
    ensures var e := ExpandTree(env, v, a); WithinBudget(env.config.totalMaxChars, a, TotalCost(e.outs), e.account)
    decreases v, 1, 0
  {
    match v
    case Str(text) => TextWithinBudget(env, text, a);
    case Arr(items) => ItemsWithinBudget(env, v, |items|, a);
    case Obj(fields) => FieldsWithinBudget(env, v, |fields|, a);
    case _ =>
  }

  lemma {:induction false} ItemsWithinBudget(env: Env, v: Value, n: nat, a: Account)
    requires v.Arr? && n <= |v.items|
    ensures var e := ExpandItems(env, v, n, a); WithinBudget(env.config.totalMaxChars, a, TotalCost(e.outs), e.account)
    decreases v, 0, n
  {
    if n > 0 {
      var front := ExpandItems(env, v, n - 1, a);
      var last := ExpandTree(env, v.items[n - 1], front.account);
      ItemsWithinBudget(env, v, n - 1, a);
      TreeWithinBudget(env, v.items[n - 1], front.account);
      CostConcat(front.outs, last.outs);
      WithinBudgetPlus(env.config.totalMaxChars, a, TotalCost(front.outs), front.account, TotalCost(last.outs), last.account);
    }
  }

  lemma {:induction false} FieldsWithinBudget(env: Env, v: Value, n: nat, a: Account)
    requires v.Obj? && n <= |v.fields|
    ensures var e := ExpandFields(env, v, n, a); WithinBudget(env.config.totalMaxChars, a, TotalCost(e.outs), e.account)
    decreases v, 0, n
  {
    if n > 0 {
      var front := ExpandFields(env, v, n - 1, a);
      var last := ExpandTree(env, v.fields[n - 1].1, front.account);
      FieldsWithinBudget(env, v, n - 1, a);
      TreeWithinBudget(env, v.fields[n - 1].1, front.account);
      CostConcat(front.outs, last.outs);
      WithinBudgetPlus(env.config.totalMaxChars, a, TotalCost(front.outs), front.account, TotalCost(last.outs), last.account);
    }
  }

  /** A whole request: blob text stays within the limit, and the counter, which also counts truncation markers, exceeds it
      by no more than one marker that is in the result. */
  lemma BudgetBound(env: Env, args: Value)
    ensures var e := ExpandTree(env, args, OPENED);
            var cost := TotalCost(e.outs);
            && cost.fromBlobs <= env.config.totalMaxChars
            && e.account.total == cost.charged
            && e.account.total <= env.config.totalMaxChars + cost.longestCut
  {
    TreeWithinBudget(env, args, OPENED);
  }

  // ---- exactly when the counter exceeds the limit ----

  function TextHandles(t: Text, i: nat): seq<Text>
    requires i <= |t|
    decreases |t| - i
  {
    var j := FindFrom(t, i);
    if j == |t| then [] else [HandleId(t, j)] + TextHandles(t, j + HANDLE_LENGTH)
  }

  /** The handles of a value, in the order in which expansion meets them. */
  function HandlesIn(v: Value): seq<Text>
    decreases v, 1, 0
  {
    match v
    case Str(text) => TextHandles(text, 0)
    case Arr(items) => HandlesInItems(v, |items|)
    case Obj(fields) => HandlesInFields(v, |fields|)
    case _ => []
  }

  function HandlesInItems(v: Value, n: nat): seq<Text>
    requires v.Arr? && n <= |v.items|
    decreases v, 0, n
  {
    if n == 0 then [] else HandlesInItems(v, n - 1) + HandlesIn(v.items[n - 1])
  }

  function HandlesInFields(v: Value, n: nat): seq<Text>
    requires v.Obj? && n <= |v.fields|
    decreases v, 0, n
  {
    if n == 0 then [] else HandlesInFields(v, n - 1) + HandlesIn(v.fields[n - 1].1)
  }

  /** What the blob behind one handle costs when the limit for the whole request is out of sight: nothing when it is not
      this session's or cannot be read, else its length, or that of its beginning and the marker. */
  function FullCost(env: Env, store: Store, id: Text): nat {
    if !store.references(id, env.session) || store.blobText(id).None? then 0
    else
      var length := |store.blobText(id).value|;
      if length <= env.config.maxChars then length
      else env.config.maxChars + |env.markers.truncation(length, env.config.maxChars)|
  }

  /** The cost of these handles, the first of which is the n-th of the request. */
  function FullCosts(env: Env, ids: seq<Text>, n: nat): nat {
    if ids == [] then 0 else FullCost(env, env.store(n), ids[0]) + FullCosts(env, ids[1..], n + 1)
  }

  /** From a handle's number, the handle and the counter to the counter after it. */
  type Charge = (nat, Text, nat) -> nat

  function Charges(env: Env): Charge {
    (n: nat, id: Text, total: nat) => Resolve(env, id, OPENED.(total := total, met := n)).1.total
  }

  function Charged(f: Charge, ids: seq<Text>, n: nat, total: nat): nat {
    if ids == [] then total else Charged(f, ids[1..], n + 1, f(n, ids[0], total))
  }

  lemma {:induction false} ChargedConcat(f: Charge, a: seq<Text>, b: seq<Text>, n: nat, total: nat)
    ensures Charged(f, a + b, n, total) == Charged(f, b, n + |a|, Charged(f, a, n, total))
  {
    if a == [] {
      assert a + b == b;
    } else {
      assert (a + b)[1..] == a[1..] + b;
      ChargedConcat(f, a[1..], b, n + 1, f(n, a[0], total));
    }
  }

  /** The counters move from `a` to `b` over these handles. */
  ghost predicate Counts(f: Charge, ids: seq<Text>, a: Account, b: Account) {
    b.met == a.met + |ids| && b.total == Charged(f, ids, a.met, a.total)
  }

  lemma CountsConcat(f: Charge, x: seq<Text>, y: seq<Text>, a: Account, b: Account, c: Account)
    requires Counts(f, x, a, b) && Counts(f, y, b, c)
    ensures Counts(f, x + y, a, c)
  {
    ChargedConcat(f, x, y, a.met, a.total);
  }

  lemma CountsOne(f: Charge, id: Text, a: Account, b: Account)
    requires b.met == a.met + 1 && b.total == f(a.met, id, a.total)
    ensures Counts(f, [id], a, b)
  {
    assert [id][1..] == [];
    assert Charged(f, [], b.met, b.total) == b.total;
  }

  ghost predicate CallbackCharges(g: Callback, f: Charge) {
    forall id, a :: g(id, a).1.met == a.met + 1 && g(id, a).1.total == f(a.met, id, a.total)
  }

  lemma {:induction false} SubCounts(g: Callback, f: Charge, t: Text, i: nat, a: Account)
    requires i <= |t| && CallbackCharges(g, f)
    ensures Counts(f, TextHandles(t, i), a, SubWith(g, t, i, a).1)
    decreases |t| - i
  {
    var j := FindFrom(t, i);
    if j < |t| {
      var id := HandleId(t, j);
      var b := g(id, a).1;
      SubCounts(g, f, t, j + HANDLE_LENGTH, b);
      CountsOne(f, id, a, b);
      CountsConcat(f, [id], TextHandles(t, j + HANDLE_LENGTH), a, b, SubWith(g, t, j + HANDLE_LENGTH, b).1);
    }
  }

  lemma ResolveCharges(env: Env, id: Text, a: Account)
    ensures Resolve(env, id, a).1.met == a.met + 1
    ensures Resolve(env, id, a).1.total == Resolve(env, id, OPENED.(total := a.total, met := a.met)).1.total
  {
  }

  lemma ReplacerCharges(env: Env)
    ensures CallbackCharges(Replacer(env), Charges(env))
  {
    forall id, a
      ensures Replacer(env)(id, a).1.met == a.met + 1 && Replacer(env)(id, a).1.total == Charges(env)(a.met, id, a.total)
    {
      ResolveCharges(env, id, a);
    }
  }

  lemma TextCounts(env: Env, t: Text, a: Account)
    ensures Counts(Charges(env), TextHandles(t, 0), a, ExpandText(env, t, a).1)
  {
    ReplacerCharges(env);
    if TextHasHandle(t) {
      SubCounts(Replacer(env), Charges(env), t, 0, a.(changed := true));
    }
  }

  lemma {:induction false} TreeCounts(env: Env, v: Value, a: Account)
    ensures Counts(Charges(env), HandlesIn(v), a, ExpandTree(env, v, a).account)
    decreases v, 1, 0
  {
    match v
    case Str(text) => TextCounts(env, text, a);
    case Arr(items) => ItemsCount(env, v, |items|, a);
    case Obj(fields) => FieldsCount(env, v, |fields|, a);
    case _ =>
  }

  lemma {:induction false} ItemsCount(env: Env, v: Value, n: nat, a: Account)
    requires v.Arr? && n <= |v.items|
    ensures Counts(Charges(env), HandlesInItems(v, n), a, ExpandItems(env, v, n, a).account)
    decreases v, 0, n
  {
    if n > 0 {
      var front := ExpandItems(env, v, n - 1, a).account;
      ItemsCount(env, v, n - 1, a);
      TreeCounts(env, v.items[n - 1], front);
      CountsConcat(Charges(env), HandlesInItems(v, n - 1), HandlesIn(v.items[n - 1]), a, front,
                   ExpandTree(env, v.items[n - 1], front).account);
    }
  }

  lemma {:induction false} FieldsCount(env: Env, v: Value, n: nat, a: Account)
    requires v.Obj? && n <= |v.fields|
    ensures Counts(Charges(env), HandlesInFields(v, n), a, ExpandFields(env, v, n, a).account)
    decreases v, 0, n
  {
    if n > 0 {
      var front := ExpandFields(env, v, n - 1, a).account;
      FieldsCount(env, v, n - 1, a);
      TreeCounts(env, v.fields[n - 1].1, front);
      CountsConcat(Charges(env), HandlesInFields(v, n - 1), HandlesIn(v.fields[n - 1].1), a, front,
                   ExpandTree(env, v.fields[n - 1].1, front).account);
    }
  }

  /** The counter sees the full cost of a handle as long as it is below the limit: it reaches or exceeds the limit exactly
      when the full cost would.  At the limit it stands still. */
  ghost predicate ChargesFullCost(f: Charge, limit: nat, n: nat, id: Text, total: nat, cost: nat) {
    var r := f(n, id, total);
    if total >= limit then r == total
    else if total + cost <= limit then r == total + cost
    else r > limit
  }

  lemma ChargeIsFullCost(env: Env, n: nat, id: Text, total: nat)
    requires env.markers == PluginMarkers()
    ensures ChargesFullCost(Charges(env), env.config.totalMaxChars, n, id, total, FullCost(env, env.store(n), id))
  {
    assert forall original, cap :: |TruncationMarker(original, cap)| > 0;
  }

  ghost predicate FollowsFullCost(env: Env, f: Charge, limit: nat) {
    forall n, id, total :: ChargesFullCost(f, limit, n, id, total, FullCost(env, env.store(n), id))
  }

  lemma ChargesFollow(env: Env)
    requires env.markers == PluginMarkers()
    ensures FollowsFullCost(env, Charges(env), env.config.totalMaxChars)
  {
    forall n, id, total
      ensures ChargesFullCost(Charges(env), env.config.totalMaxChars, n, id, total, FullCost(env, env.store(n), id))
    {
      ChargeIsFullCost(env, n, id, total);
    }
  }

  lemma {:induction false} ExhaustedStays(env: Env, f: Charge, limit: nat, ids: seq<Text>, n: nat, total: nat)
    requires FollowsFullCost(env, f, limit) && total >= limit
    ensures Charged(f, ids, n, total) == total
  {
    if ids != [] {
      assert ChargesFullCost(f, limit, n, ids[0], total, FullCost(env, env.store(n), ids[0]));
      ExhaustedStays(env, f, limit, ids[1..], n + 1, total);
    }
  }

  /** Some prefix of the handles costs exactly what is left. */
  ghost predicate SpendsExactly(env: Env, ids: seq<Text>, n: nat, left: nat) {
    exists k :: 0 <= k <= |ids| && FullCosts(env, ids[..k], n) == left
  }

  lemma SpendsNothing(env: Env, ids: seq<Text>, n: nat)
    ensures SpendsExactly(env, ids, n, 0)
  {
    assert ids[..0] == [];
    assert FullCosts(env, ids[..0], n) == 0;
  }

  lemma SpendsStep(env: Env, ids: seq<Text>, n: nat, left: nat)
    requires ids != [] && left > 0
    ensures var first := FullCost(env, env.store(n), ids[0]);
            SpendsExactly(env, ids, n, left) <==> first <= left && SpendsExactly(env, ids[1..], n + 1, left - first)
  {
    var first := FullCost(env, env.store(n), ids[0]);
    forall k | 0 < k <= |ids|
      ensures FullCosts(env, ids[..k], n) == first + FullCosts(env, ids[1..][..k - 1], n + 1)
    {
      assert ids[..k][1..] == ids[1..][..k - 1];
    }
    assert ids[..0] == [];
    if first <= left && SpendsExactly(env, ids[1..], n + 1, left - first) {
      var k :| 0 <= k <= |ids[1..]| && FullCosts(env, ids[1..][..k], n + 1) == left - first;
      assert FullCosts(env, ids[..k + 1], n) == left;
    }
  }

  lemma {:induction false} ChargedExactly(env: Env, f: Charge, limit: nat, ids: seq<Text>, n: nat, total: nat)
    requires FollowsFullCost(env, f, limit) && total <= limit
    ensures var r, full := Charged(f, ids, n, total), total + FullCosts(env, ids, n);
            && (r > limit <==> full > limit && !SpendsExactly(env, ids, n, limit - total))
            && (r <= limit ==> r == Min(full, limit))
  {
    if total == limit {
      ExhaustedStays(env, f, limit, ids, n, total);
      SpendsNothing(env, ids, n);
    } else if ids == [] {
      assert ids[..0] == [];
    } else {
      var cost := FullCost(env, env.store(n), ids[0]);
      var next := f(n, ids[0], total);
      assert ChargesFullCost(f, limit, n, ids[0], total, cost);
      SpendsStep(env, ids, n, limit - total);
      if total + cost <= limit {
        ChargedExactly(env, f, limit, ids[1..], n + 1, next);
      } else {
        ExhaustedStays(env, f, limit, ids[1..], n + 1, next);
      }
    }
  }

  lemma ChargedIff(env: Env, ids: seq<Text>, total: nat)
    requires env.markers == PluginMarkers() && total == Charged(Charges(env), ids, 0, 0)
    ensures var limit := env.config.totalMaxChars;
            && (total > limit <==> FullCosts(env, ids, 0) > limit && !SpendsExactly(env, ids, 0, limit))
            && (total <= limit ==> total == Min(FullCosts(env, ids, 0), limit))
  {
    ChargesFollow(env);
    ChargedExactly(env, Charges(env), env.config.totalMaxChars, ids, 0, 0);
  }

  /** The cap on the whole request, as the counter keeps it: over the handles in order, with their full costs, the counter
      ends above the limit exactly when the costs together exceed the limit and no prefix of them spends it exactly;
      otherwise it ends at their sum or at the limit, whichever is less. */
  lemma CounterExceedsLimitIff(env: Env, args: Value)
    requires env.markers == PluginMarkers()
    ensures var limit, ids, total := env.config.totalMaxChars, HandlesIn(args), ExpandTree(env, args, OPENED).account.total;
            && (total > limit <==> FullCosts(env, ids, 0) > limit && !SpendsExactly(env, ids, 0, limit))
            && (total <= limit ==> total == Min(FullCosts(env, ids, 0), limit))
  {
    TreeCounts(env, args, OPENED);
    ChargedIff(env, HandlesIn(args), ExpandTree(env, args, OPENED).account.total);
  }

  function BlobLength(env: Env, store: Store, id: Text): nat {
    if store.references(id, env.session) && store.blobText(id).Some? then |store.blobText(id).value| else 0
  }

  /** The lengths of the referenced blobs, each counted as often as its handle occurs. */
  function BlobLengths(env: Env, ids: seq<Text>, n: nat): nat {
    if ids == [] then 0 else BlobLength(env, env.store(n), ids[0]) + BlobLengths(env, ids[1..], n + 1)
  }

  ghost predicate BlobsFit(env: Env, ids: seq<Text>, n: nat) {
    forall k :: 0 <= k < |ids| ==> BlobLength(env, env.store(n + k), ids[k]) <= env.config.maxChars
  }

  lemma {:induction false} LengthsAreCosts(env: Env, ids: seq<Text>, n: nat)
    requires BlobsFit(env, ids, n)
    ensures FullCosts(env, ids, n) == BlobLengths(env, ids, n)
  {
    if ids != [] {
      assert env.store(n + 0) == env.store(n);
      forall k | 0 <= k < |ids[1..]|
        ensures BlobLength(env, env.store(n + 1 + k), ids[1..][k]) <= env.config.maxChars
      {
        assert ids[1..][k] == ids[k + 1] && env.store(n + (k + 1)) == env.store(n + 1 + k);
      }
      LengthsAreCosts(env, ids[1..], n + 1);
    }
  }

  /** When every referenced blob is within the limit for one blob and all of them together are within the limit for the
      request, the counter is their length and stays within the limit. */
  lemma FittingBlobsStayWithin(env: Env, args: Value)
    requires env.markers == PluginMarkers() && BlobsFit(env, HandlesIn(args), 0)
    requires BlobLengths(env, HandlesIn(args), 0) <= env.config.totalMaxChars
    ensures ExpandTree(env, args, OPENED).account.total == BlobLengths(env, HandlesIn(args), 0)
  {
    LengthsAreCosts(env, HandlesIn(args), 0);
    CounterExceedsLimitIff(env, args);
  }

  /** The bound on the counter cannot be the limit: a blob of one character more than the limit exceeds it. */
  lemma CounterCanExceedLimit(env: Env, id: Text, content: Text)
    requires env.store(0).references(id, env.session) && env.store(0).blobText(id) == Some(content)
    requires env.markers == PluginMarkers() && 0 < env.config.totalMaxChars < |content| && env.config.totalMaxChars <= env.config.maxChars
    ensures Resolve(env, id, OPENED).1.total == env.config.totalMaxChars
                                                + |TruncationMarker(|content|, env.config.totalMaxChars)|
    ensures Resolve(env, id, OPENED).1.total > env.config.totalMaxChars
  {
  }

  // ---- what the result is made of ----

  /** The strings of a value one after the other. */
  function Strings(v: Value): Text
    decreases v, 1, 0
  {
    match v
    case Str(text) => text
    case Arr(items) => StringsOfItems(v, |items|)
    case Obj(fields) => StringsOfFields(v, |fields|)
    case _ => []
  }

  function StringsOfItems(v: Value, n: nat): Text
    requires v.Arr? && n <= |v.items|
    decreases v, 0, n
  {
    if n == 0 then [] else StringsOfItems(v, n - 1) + Strings(v.items[n - 1])
  }

  function StringsOfFields(v: Value, n: nat): Text
    requires v.Obj? && n <= |v.fields|
    decreases v, 0, n
  {
    if n == 0 then [] else StringsOfFields(v, n - 1) + Strings(v.fields[n - 1].1)
  }

  /** The stretches with every replaced handle put back. */
  function Restored(outs: seq<Out>): Text {
    if outs == [] then []
    else (if outs[0].Kept? then outs[0].text else HANDLE_PREFIX + outs[0].id) + Restored(outs[1..])
  }

  lemma {:induction false} RestoredConcat(a: seq<Out>, b: seq<Out>)
    ensures Restored(a + b) == Restored(a) + Restored(b)
  {
    if a == [] {
      assert a + b == b;
    } else {
      assert (a + b)[1..] == a[1..] + b;
      RestoredConcat(a[1..], b);
    }
  }

  /** A stretch is what its kind says: literals hold no handle, and blob text is the beginning of a blob that the session
      references, cut at the limit for one blob or earlier, and marked exactly when it is cut. */
  ghost predicate Genuine(env: Env, o: Out) {
    match o
    case Kept(text) => !TextHasHandle(text)
    case Refused(id, marker) =>
      IsId(id) && (
      || marker == env.markers.missing(id) || marker == env.markers.otherSession(id)
      || marker == env.markers.budget(env.config.totalMaxChars))
    case Blob(id, content, cut) => IsId(id) && exists n: nat :: IsOwnBlob(env, env.store(n), id, content, cut)
  }

  predicate IsOwnBlob(env: Env, store: Store, id: Text, content: Text, cut: Text) {
    && store.references(id, env.session)
    && store.blobText(id).Some?
    && content <= store.blobText(id).value
    && |content| <= env.config.maxChars
    && cut == if content == store.blobText(id).value then [] else env.markers.truncation(|store.blobText(id).value|, |content|)
  }

  predicate IsId(id: Text) {
    |id| == HANDLE_LENGTH - 4 && AllLowerHex(id)
  }

  ghost predicate AllGenuine(env: Env, outs: seq<Out>) {
    forall k :: 0 <= k < |outs| ==> Genuine(env, outs[k])
  }

  lemma ResolveGenuine(env: Env, id: Text, a: Account)
    requires IsId(id)
    ensures Genuine(env, Resolve(env, id, a).0) && !Resolve(env, id, a).0.Kept? && Resolve(env, id, a).0.id == id
  {
    var o := Resolve(env, id, a).0;
    if o.Blob? {
      assert IsOwnBlob(env, env.store(a.met), id, o.content, o.cut);
    }
  }

  lemma HandleSpelled(t: Text, i: nat, j: nat)
    requires i <= j && HandleAt(t, j)
    ensures t[i..] == t[i..j] + ((HANDLE_PREFIX + HandleId(t, j)) + t[j + HANDLE_LENGTH..])
  {
    assert t[j..j + HANDLE_LENGTH] == HANDLE_PREFIX + HandleId(t, j);
  }

  /** Everything the callback gives stands for the handle it was given. */
  ghost predicate CallbackGenuine(f: Callback, env: Env) {
    forall id, a :: IsId(id) ==> !f(id, a).0.Kept? && f(id, a).0.id == id && Genuine(env, f(id, a).0)
  }

  lemma ReplacerGenuine(env: Env)
    ensures CallbackGenuine(Replacer(env), env)
  {
    forall id, a | IsId(id)
      ensures var o := Replacer(env)(id, a).0; !o.Kept? && o.id == id && Genuine(env, o)
    {
      ResolveGenuine(env, id, a);
    }
  }

  /** `r` is the substitution in `t` from `i` on. */
  lemma {:induction false} SubIsRestored(f: Callback, env: Env, t: Text, i: nat, a: Account, r: (seq<Out>, Account))
    requires i <= |t| && CallbackGenuine(f, env) && r == SubWith(f, t, i, a)
    ensures Restored(r.0) == t[i..]
    decreases |t| - i
  {
    if FindFrom(t, i) == |t| {
      RestoredOne(t[i..]);
    } else {
      var j, o, b, rest := SubStep(f, t, i, a);
      IdOfHandle(t, j);
      SubIsRestored(f, env, t, j + HANDLE_LENGTH, b, rest);
      RestoredStep(t, i, j, o, rest.0);
    }
  }

  lemma IdOfHandle(t: Text, j: nat)
    requires HandleAt(t, j)
    ensures IsId(HandleId(t, j))
  {
  }

  lemma RestoredOne(text: Text)
    ensures Restored([Kept(text)]) == text
  {
    assert [Kept(text)][1..] == [];
    assert Restored([]) == [];
  }

  lemma RestoredStep(t: Text, i: nat, j: nat, o: Out, outs: seq<Out>)
    requires i <= j && HandleAt(t, j) && !o.Kept? && o.id == HandleId(t, j) && Restored(outs) == t[j + HANDLE_LENGTH..]
    ensures Restored([Kept(t[i..j]), o] + outs) == t[i..]
  {
    RestoredPair(t[i..j], o, outs);
    HandleSpelled(t, i, j);
  }

  lemma {:induction false} SubIsGenuine(f: Callback, env: Env, t: Text, i: nat, a: Account)
    requires i <= |t| && CallbackGenuine(f, env)
    ensures AllGenuine(env, SubWith(f, t, i, a).0)
    decreases |t| - i
  {
    if FindFrom(t, i) == |t| {
      NoHandleBetween(t, i, |t|);
      assert t[i..|t|] == t[i..];
    } else {
      var j, o, b, rest := SubStep(f, t, i, a);
      NoHandleBetween(t, i, j);
      IdOfHandle(t, j);
      SubIsGenuine(f, env, t, j + HANDLE_LENGTH, b);
      GenuinePair(env, t[i..j], o, rest.0);
    }
  }

  lemma GenuinePair(env: Env, text: Text, o: Out, outs: seq<Out>)
    requires !TextHasHandle(text) && Genuine(env, o) && AllGenuine(env, outs)
    ensures AllGenuine(env, [Kept(text), o] + outs)
  {
  }

  lemma RestoredPair(text: Text, o: Out, outs: seq<Out>)
    requires !o.Kept?
    ensures Restored([Kept(text), o] + outs) == text + ((HANDLE_PREFIX + o.id) + Restored(outs))
  {
    var all := [Kept(text), o] + outs;
    assert all[1..] == [o] + outs;
    assert all[1..][1..] == outs;
  }

  /** The rewritten strings are the stretches, and the original strings are the same stretches with their handles. */
  ghost predicate Faithful(env: Env, before: Text, outs: seq<Out>, after: Text) {
    before == Restored(outs) && after == Spell(outs) && AllGenuine(env, outs)
  }

  lemma FaithfulConcat(env: Env, b0: Text, x: seq<Out>, a0: Text, b1: Text, y: seq<Out>, a1: Text)
    requires Faithful(env, b0, x, a0) && Faithful(env, b1, y, a1)
    ensures Faithful(env, b0 + b1, x + y, a0 + a1)
  {
    RestoredConcat(x, y);
    SpellConcat(x, y);
  }

  lemma {:induction false} TreeIsFaithful(env: Env, v: Value, a: Account)
    ensures var e := ExpandTree(env, v, a); Faithful(env, Strings(v), e.outs, Strings(e.value))
    decreases v, 1, 0
  {
    match v
    case Str(text) => StringIsFaithful(env, text, a);
    case Arr(items) =>
      var list := ExpandItems(env, v, |items|, a).value;
      ExpandedLength(env, v, |items|, a);
      assert list[..|items|] == list;
      ItemsAreFaithful(env, v, |items|, a, Arr(list));
    case Obj(fields) =>
      var dict := ExpandFields(env, v, |fields|, a).value;
      ExpandedKeys(env, v, |fields|, a);
      assert dict[..|fields|] == dict;
      FieldsAreFaithful(env, v, |fields|, a, Obj(dict));
    case _ =>
  }

  lemma StringIsFaithful(env: Env, t: Text, a: Account)
    ensures var (outs, b) := ExpandText(env, t, a); Faithful(env, t, outs, Spell(outs))
  {
    ReplacerGenuine(env);
    SubIsRestored(Replacer(env), env, t, 0, a.(changed := true), SubWith(Replacer(env), t, 0, a.(changed := true)));
    SubIsGenuine(Replacer(env), env, t, 0, a.(changed := true));
    if !TextHasHandle(t) {
      assert [Kept(t)][1..] == [];
      SpellOne(Kept(t));
    }
  }

  lemma {:induction false} ItemsAreFaithful(env: Env, v: Value, n: nat, a: Account, w: Value)
    requires v.Arr? && n <= |v.items| && w.Arr? && n <= |w.items|
    requires w.items[..n] == ExpandItems(env, v, n, a).value
    ensures Faithful(env, StringsOfItems(v, n), ExpandItems(env, v, n, a).outs, StringsOfItems(w, n))
    decreases v, 0, n
  {
    if n > 0 {
      var front := ExpandItems(env, v, n - 1, a);
      var last := ExpandTree(env, v.items[n - 1], front.account);
      ExpandedLength(env, v, n - 1, a);
      assert w.items[..n][n - 1] == last.value && w.items[..n - 1] == w.items[..n][..n - 1];
      ItemsAreFaithful(env, v, n - 1, a, w);
      TreeIsFaithful(env, v.items[n - 1], front.account);
      FaithfulConcat(env, StringsOfItems(v, n - 1), front.outs, StringsOfItems(w, n - 1),
                     Strings(v.items[n - 1]), last.outs, Strings(w.items[n - 1]));
    }
  }

  lemma {:induction false} ExpandedLength(env: Env, v: Value, n: nat, a: Account)
    requires v.Arr? && n <= |v.items|
    ensures |ExpandItems(env, v, n, a).value| == n
  {
    if n > 0 {
      ExpandedLength(env, v, n - 1, a);
    }
  }

  /** Expansion keeps the keys and their order. */
  lemma {:induction false} ExpandedKeys(env: Env, v: Value, n: nat, a: Account)
    requires v.Obj? && n <= |v.fields|
    ensures var f := ExpandFields(env, v, n, a).value; |f| == n && forall k :: 0 <= k < n ==> f[k].0 == v.fields[k].0
  {
    if n > 0 {
      ExpandedKeys(env, v, n - 1, a);
    }
  }

  lemma {:induction false} FieldsAreFaithful(env: Env, v: Value, n: nat, a: Account, w: Value)
    requires v.Obj? && n <= |v.fields| && w.Obj? && n <= |w.fields|
    requires w.fields[..n] == ExpandFields(env, v, n, a).value
    ensures Faithful(env, StringsOfFields(v, n), ExpandFields(env, v, n, a).outs, StringsOfFields(w, n))
    decreases v, 0, n
  {
    if n > 0 {
      var front := ExpandFields(env, v, n - 1, a);
      var last := ExpandTree(env, v.fields[n - 1].1, front.account);
      ExpandedKeys(env, v, n - 1, a);
      assert w.fields[..n][n - 1].1 == last.value && w.fields[..n - 1] == w.fields[..n][..n - 1];
      FieldsAreFaithful(env, v, n - 1, a, w);
      TreeIsFaithful(env, v.fields[n - 1].1, front.account);
      FaithfulConcat(env, StringsOfFields(v, n - 1), front.outs, StringsOfFields(w, n - 1),
                     Strings(v.fields[n - 1].1), last.outs, Strings(w.fields[n - 1].1));
    }
  }
}
