/** The memo of structured pruning: its fingerprint, its least-recently-used store, and the code over mutable results. */
module Memo {
  import opened Prelude
  import opened Json
  import opened JsonPrinter

  // ---- requests and fingerprints ----

  /** A value of the configuration or of a contribution.  A foreign one is neither serialised nor copied by Python. */
  datatype Datum = Plain(v: Value) | Foreign(tag: int)

  type Fields = map<string, Datum>

  datatype Request = Request(contributions: seq<Fields>, pressure: Datum, threshold: Datum, config: Fields)

  const IDENTITY_KEYS: set<string> := {"session_id", "turn_id", "task_id", "request_id", "conversation_id"}
  const RUNTIME_KEYS: set<string> := {
    "threshold_tokens", "target_tokens", "trigger_tokens", "now_epoch_ms", "tool_schema_tokens"}
  const EXCLUDED_KEYS: set<string> := {"phase"}
  const CONTRIBUTION_KEYS: set<string> := {
    "id", "kind", "provenance", "class", "stability", "content_hash", "token_estimate", "char_count",
    "atomic_group_id", "prune_policy", "protected_reason", "created_at_epoch_ms"}

  predicate IsPruningKey(key: string) {
    key !in EXCLUDED_KEYS && ("tokenjuice_prompt_pruning_" <= key || "tokenjuice_rescue_" <= key)
  }

  /** `contribution.get(key)`. */
  function Get(c: Fields, key: string): Datum {
    if key in c then c[key] else Plain(Null)
  }

  function Row(c: Fields): Fields {
    map key | key in CONTRIBUTION_KEYS :: Get(c, key)
  }

  /** What is serialised; its digest is taken to be injective, so it is the key itself. */
  datatype Key = Key(identity: Fields, pressure: Datum, threshold: Datum, runtime: Fields, config: Fields, rows: seq<Fields>)

  function Payload(q: Request): Key {
    Key(map key | key in q.config && key in IDENTITY_KEYS :: q.config[key],
        q.pressure, q.threshold,
        map key | key in q.config && key in RUNTIME_KEYS :: q.config[key],
        map key | key in q.config && IsPruningKey(key) :: q.config[key],
        seq(|q.contributions|, i requires 0 <= i < |q.contributions| => Row(q.contributions[i])))
  }

  predicate Encodable(d: Datum) {
    d.Plain? && Convertible(d.v)
  }

  predicate AllEncodable(fields: Fields) {
    forall key :: key in fields ==> Encodable(fields[key])
  }

  predicate EncodableKey(k: Key) {
    AllEncodable(k.identity) && Encodable(k.pressure) && Encodable(k.threshold) && AllEncodable(k.runtime)
    && AllEncodable(k.config) && forall i :: 0 <= i < |k.rows| ==> AllEncodable(k.rows[i])
  }

  /** None when json.dumps raises. */
  function Fingerprint(q: Request): Option<Key> {
    if EncodableKey(Payload(q)) then Some(Payload(q)) else None
  }

  // ---- the store as a value: keys with results, least recently used first ----

  datatype Kind = List | Dict

  /** What a result holds: nested lists and dicts with scalars at the leaves.  The entries of a list have no name. */
  datatype Tree = Leaf(d: Datum) | Branch(kind: Kind, entries: seq<(string, Tree)>)

  type Cache = seq<(Key, Tree)>

  /** What deepcopy copies without raising. */
  predicate Copyable(t: Tree) {
    match t
    case Leaf(d) => d.Plain?
    case Branch(_, entries) => forall i :: 0 <= i < |entries| ==> Copyable(entries[i].1)
  }

  function Lookup(cache: Cache, k: Key): Option<Tree> {
    if cache == [] then None else if cache[0].0 == k then Some(cache[0].1) else Lookup(cache[1..], k)
  }

  function Without(cache: Cache, k: Key): Cache {
    if cache == [] then [] else (if cache[0].0 == k then [] else [cache[0]]) + Without(cache[1..], k)
  }

  function Newest<T>(xs: seq<T>, n: nat): seq<T> {
    if |xs| > n then xs[|xs| - n..] else xs
  }

  function Capacity(maxEntries: int): nat {
    Max(1, maxEntries)
  }

  /** One call: what it answers, given what computing would return, and the store afterwards. */
  function Step(maxEntries: int, cache: Cache, key: Option<Key>, direct: Option<Tree>): (Option<Tree>, Cache) {
    if key.None? then (direct, cache)
    else match Lookup(cache, key.value)
      case Some(tree) => (Some(tree), Without(cache, key.value) + [(key.value, tree)])
      case None =>
        if direct.None? || !Copyable(direct.value) then (direct, cache)
        else (direct, Newest(cache + [(key.value, direct.value)], Capacity(maxEntries)))
  }

  // ---- results on the heap ----

  /** An element of a list or a value of a dict: a scalar, or a reference to another list or dict. */
  datatype Slot = Scalar(d: Datum) | Child(node: Node)

  /** A mutable list or dict. */
  class Node {
    var kind: Kind
    var entries: seq<(string, Slot)>

    constructor (kind: Kind, entries: seq<(string, Slot)>)
      ensures this.kind == kind && this.entries == entries
    {
      this.kind, this.entries := kind, entries;
    }
  }

  /** At this moment the slot holds the tree `t`, and all nodes below it are among `inside`. */
  ghost predicate Shows(slot: Slot, t: Tree, inside: set<Node>)
    reads inside
    decreases t
  {
    match t
    case Leaf(d) => slot == Scalar(d)
    case Branch(kind, entries) =>
      && slot.Child? && slot.node in inside && slot.node.kind == kind
      && |slot.node.entries| == |entries|
      && forall i :: 0 <= i < |entries| ==>
           slot.node.entries[i].0 == entries[i].0 && Shows(slot.node.entries[i].1, entries[i].1, inside)
  }

  lemma {:induction false} ShowsWithin(slot: Slot, t: Tree, inner: set<Node>, outer: set<Node>)
    requires Shows(slot, t, inner) && inner <= outer
    ensures Shows(slot, t, outer)
    decreases t
  {
    if t.Branch? {
      forall i | 0 <= i < |t.entries|
        ensures Shows(slot.node.entries[i].1, t.entries[i].1, outer)
      {
        ShowsWithin(slot.node.entries[i].1, t.entries[i].1, inner, outer);
      }
    }
  }

  /** A slot holds one tree. */
  lemma {:induction false} ShowsOne(slot: Slot, t: Tree, u: Tree, a: set<Node>, b: set<Node>)
    requires Shows(slot, t, a) && Shows(slot, u, b)
    ensures t == u
    decreases t
  {
    if t.Branch? {
      forall i | 0 <= i < |t.entries|
        ensures t.entries[i] == u.entries[i]
      {
        ShowsOne(slot.node.entries[i].1, t.entries[i].1, u.entries[i].1, a, b);
      }
    }
  }

  /** The first n slots hold the first n trees. */
  ghost predicate ShowAll(slots: seq<(string, Slot)>, entries: seq<(string, Tree)>, n: nat, inside: set<Node>)
    requires n <= |slots| && n <= |entries|
    reads inside
  {
    forall i :: 0 <= i < n ==> slots[i].0 == entries[i].0 && Shows(slots[i].1, entries[i].1, inside)
  }

  lemma ShowsOneMore(slots: seq<(string, Slot)>, entries: seq<(string, Tree)>, inside: set<Node>, slot: Slot, more: set<Node>)
    requires |slots| < |entries| && ShowAll(slots, entries, |slots|, inside) && Shows(slot, entries[|slots|].1, more)
    ensures ShowAll(slots + [(entries[|slots|].0, slot)], entries, |slots| + 1, inside + more)
  {
    forall i | 0 <= i < |slots|
      ensures Shows(slots[i].1, entries[i].1, inside + more)
    {
      ShowsWithin(slots[i].1, entries[i].1, inside, inside + more);
    }
    ShowsWithin(slot, entries[|slots|].1, more, inside + more);
  }

  /** A new node around these slots. */
  method Wrap(kind: Kind, slots: seq<(string, Slot)>, ghost entries: seq<(string, Tree)>, ghost below: set<Node>)
    returns (slot: Slot, ghost inside: set<Node>)
    requires |slots| == |entries| && ShowAll(slots, entries, |entries|, below)
    ensures fresh(inside - below) && slot.Child? && Shows(slot, Branch(kind, entries), inside)
  {
    var made := new Node(kind, slots);
    inside := below + {made};
    forall i | 0 <= i < |slots|
      ensures Shows(slots[i].1, entries[i].1, inside)
    {
      ShowsWithin(slots[i].1, entries[i].1, below, inside);
    }
    slot := Child(made);
  }

  /** deepcopy of what a slot holds, None when it raises. */
  method DeepCopy(slot: Slot, ghost t: Tree, ghost inside: set<Node>) returns (copy: Option<Slot>, ghost more: set<Node>)
    requires Shows(slot, t, inside)
    ensures copy.Some? <==> Copyable(t)
    ensures copy.Some? ==> fresh(more) && Shows(copy.value, t, more) && (slot.Child? ==> copy.value.Child?)
    decreases t
  {
    more := {};
    match slot
    case Scalar(d) =>
      copy := if d.Plain? then Some(slot) else None;
    case Child(node) =>
      var slots: seq<(string, Slot)> := [];
      for i := 0 to |node.entries|
        invariant |slots| == i && fresh(more) && ShowAll(slots, t.entries, i, more)
        invariant forall k :: 0 <= k < i ==> Copyable(t.entries[k].1)
      {
        var element, nodes := DeepCopy(node.entries[i].1, t.entries[i].1, inside);
        if element.None? {
          return None, {};
        }
        ShowsOneMore(slots, t.entries, more, element.value, nodes);
        slots, more := slots + [(node.entries[i].0, element.value)], more + nodes;
      }
      var made, around := Wrap(node.kind, slots, t.entries, more);
      copy, more := Some(made), around;
  }

  // ---- the code ----

  /** The callback of one call: the result it returns, what that holds and where, and whether the callback has run. */
  class Computation {
    const outcome: Node?
    ghost const tree: Tree
    ghost const reach: set<Node>
    var called: bool

    constructor (outcome: Node?, ghost tree: Tree, ghost reach: set<Node>)
      ensures this.outcome == outcome && this.tree == tree && this.reach == reach && !called
    {
      this.outcome, this.tree, this.reach, called := outcome, tree, reach, false;
    }

    method Run() returns (r: Node?)
      modifies this
      ensures r == outcome && called
    {
      called := true;
      r := outcome;
    }

    ghost predicate IsOutside(footprint: set<Node>)
      reads reach
    {
      outcome != null ==> Shows(Child(outcome), tree, reach) && reach !! footprint
    }

    ghost function Direct(): Option<Tree> {
      if outcome == null then None else Some(tree)
    }
  }

  function Remove(order: seq<Key>, k: Key): seq<Key> {
    if order == [] then [] else (if order[0] == k then [] else [order[0]]) + Remove(order[1..], k)
  }

  function Drop<K, V>(entries: map<K, V>, k: K): map<K, V> {
    map key | key in entries && key != k :: entries[key]
  }

  /** `order` lists the keys, each once. */
  ghost predicate Lists<K>(order: seq<K>, keys: set<K>) {
    NoDuplicates(order) && (forall k :: k in order ==> k in keys) && forall k :: k in keys ==> k in order
  }

  lemma ListsRest<K, V>(order: seq<K>, entries: map<K, V>)
    requires order != [] && Lists(order, entries.Keys)
    ensures order[0] in entries && Lists(order[1..], Drop(entries, order[0]).Keys)
  {
  }

  lemma ListsMore<K, V>(order: seq<K>, entries: map<K, V>, k: K, v: V)
    requires k !in entries && Lists(order, entries.Keys)
    ensures Lists(order + [k], entries[k := v].Keys)
  {
  }

  /** The store that `order` and `trees` represent. */
  function Snapshot(order: seq<Key>, trees: map<Key, Tree>): (cache: Cache)
    requires forall k :: k in order ==> k in trees
    ensures |cache| == |order|
  {
    if order == [] then [] else [(order[0], trees[order[0]])] + Snapshot(order[1..], trees)
  }

  /** The results are copyable, hold these trees, and lie within the footprint. */
  ghost predicate HoldAll(results: map<Key, Node>, trees: map<Key, Tree>, footprint: set<Node>)
    reads footprint
  {
    && results.Keys == trees.Keys
    && forall k :: k in results ==> Copyable(trees[k]) && Shows(Child(results[k]), trees[k], footprint)
  }

  lemma HoldRest(results: map<Key, Node>, trees: map<Key, Tree>, footprint: set<Node>, k: Key)
    requires HoldAll(results, trees, footprint)
    ensures HoldAll(Drop(results, k), Drop(trees, k), footprint)
  {
  }

  lemma HoldMore(results: map<Key, Node>, trees: map<Key, Tree>, footprint: set<Node>, k: Key, copy: Node, t: Tree, nodes: set<Node>)
    requires HoldAll(results, trees, footprint) && Copyable(t) && Shows(Child(copy), t, nodes)
    ensures HoldAll(results[k := copy], trees[k := t], footprint + nodes)
  {
    forall x | x in results
      ensures Shows(Child(results[x]), trees[x], footprint + nodes)
    {
      ShowsWithin(Child(results[x]), trees[x], footprint, footprint + nodes);
    }
    ShowsWithin(Child(copy), t, nodes, footprint + nodes);
  }

  class PruningMemo {
    var maxEntries: int
    var order: seq<Key>
    var results: map<Key, Node>
    /** The lists and dicts that the memo holds, at any depth, and the trees that its results hold. */
    ghost var footprint: set<Node>
    ghost var trees: map<Key, Tree>

    constructor (maxEntries: int)
      ensures Valid() && Contents() == [] && this.maxEntries == maxEntries && footprint == {}
    {
      this.maxEntries, order, results := maxEntries, [], map[];
      footprint, trees := {}, map[];
    }

    ghost predicate Valid()
      reads this, footprint
    {
      Lists(order, results.Keys) && HoldAll(results, trees, footprint)
    }

    ghost function Contents(): Cache
      requires forall k :: k in order ==> k in trees
      reads this
    {
      Snapshot(order, trees)
    }

    /** The callback may return any result that does not reach into the memo.  What the caller gets holds the tree `t`, and
        does not reach into the memo either. */
    method ReuseOrCompute(q: Request, compute: Computation) returns (r: Node?, ghost t: Tree, ghost reach: set<Node>)
      requires Valid() && compute.IsOutside(footprint)
      modifies this, compute
      ensures Valid() && maxEntries == old(maxEntries)
      ensures r != null ==> Shows(Child(r), t, reach) && reach !! footprint
      ensures (if r == null then None else Some(t), Contents())
           == Step(old(maxEntries), old(Contents()), Fingerprint(q), compute.Direct())
      ensures compute.called <==> old(compute.called) || Fingerprint(q).None? || Fingerprint(q).value !in old(results)
      ensures r != null ==> (r == compute.outcome && reach == compute.reach) || fresh(reach)
      ensures fresh(footprint - old(footprint))
    {
      t, reach := compute.tree, compute.reach;
      var key := Fingerprint(q);
      if key.None? {
        r := compute.Run();
        return;
      }
      var k := key.value;
      LookupSnapshot(order, trees, k);
      if k in results {
        t := trees[k];
        r, reach := Hit(k);
        return;
      }
      r := Miss(k, compute);
    }

    /** Computes, and stores a copy of the result when there is one. */
    method Miss(k: Key, compute: Computation) returns (r: Node?)
      requires Valid() && k !in results && compute.IsOutside(footprint)
      modifies this`order, this`results, this`footprint, this`trees, compute
      ensures Valid() && r == compute.outcome && compute.called
      ensures footprint >= old(footprint) && fresh(footprint - old(footprint))
      ensures Contents() == if r == null || !Copyable(compute.tree) then old(Contents())
                            else Newest(old(Contents()) + [(k, compute.tree)], Capacity(maxEntries))
    {
      r := compute.Run();
      if r != null {
        var copy, nodes := DeepCopy(Child(r), compute.tree, compute.reach);
        if copy.Some? {
          Store(k, copy.value.node, compute.tree, nodes);
        }
      }
    }

    /** A copy of a stored result, which becomes the most recently used one.  Copying a stored result never fails. */
    method Hit(k: Key) returns (r: Node, ghost reach: set<Node>)
      requires Valid() && k in results
      modifies this`order
      ensures Valid() && fresh(reach) && Shows(Child(r), trees[k], reach)
      ensures Contents() == Without(old(Contents()), k) + [(k, trees[k])]
    {
      r := results[k];
      var copy, nodes := DeepCopy(Child(r), trees[k], footprint);
      if copy.Some? {
        r, reach := copy.value.node, nodes;
      }
      MoveToEnd(k);
    }

    /** A hit makes its key the most recently used one. */
    method MoveToEnd(k: Key)
      requires Valid() && k in results
      modifies this`order
      ensures Valid() && order == Remove(old(order), k) + [k]
      ensures Contents() == Without(old(Contents()), k) + [(k, trees[k])]
    {
      RemoveMembers(order, k);
      MovedSnapshot(order, trees, k);
      order := Remove(order, k) + [k];
    }

    method Store(k: Key, copy: Node, ghost t: Tree, ghost nodes: set<Node>)
      requires Valid() && k !in results && Shows(Child(copy), t, nodes) && Copyable(t)
      modifies this`order, this`results, this`footprint, this`trees
      ensures Valid() && footprint == old(footprint) + nodes
      ensures Contents() == Newest(old(Contents()) + [(k, t)], Capacity(maxEntries))
    {
      Insert(k, copy, t, nodes);
      Evict();
    }

    method Insert(k: Key, copy: Node, ghost t: Tree, ghost nodes: set<Node>)
      requires Valid() && k !in results && Shows(Child(copy), t, nodes) && Copyable(t)
      modifies this`order, this`results, this`footprint, this`trees
      ensures Valid() && footprint == old(footprint) + nodes
      ensures Contents() == old(Contents()) + [(k, t)]
    {
      SnapshotAppend(order, trees, k, t);
      ListsMore(order, results, k, copy);
      HoldMore(results, trees, footprint, k, copy, t, nodes);
      results, order := results[k := copy], order + [k];
      trees, footprint := trees[k := t], footprint + nodes;
    }

    /** Drops the least recently used entries beyond the capacity. */
    method Evict()
      requires Valid()
      modifies this`order, this`results, this`trees
      ensures Valid() && Contents() == Newest(old(Contents()), Capacity(maxEntries))
    {
      ghost var all := Contents();
      ghost var dropped := 0;
      while |order| > Max(1, maxEntries)
        invariant Valid()
        invariant dropped <= |all| && Contents() == all[dropped..]
        invariant dropped > 0 ==> |order| >= Max(1, maxEntries)
      {
        EvictOldest();
        dropped := dropped + 1;
      }
    }

    method EvictOldest()
      requires Valid() && order != []
      modifies this`order, this`results, this`trees
      ensures Valid()
      ensures order == old(order)[1..] && Contents() == old(Contents())[1..]
    {
      var oldest := order[0];
      ghost var held, worth := results, trees;
      ListsRest(order, results);
      SnapshotRest(order, trees);
      order, results, trees := order[1..], Drop(results, oldest), Drop(trees, oldest);
      HoldRest(held, worth, footprint, oldest);
    }
  }

  // ---- lemmas about the representation ----

  lemma NoDuplicatesCons(k: Key, rest: seq<Key>)
    requires NoDuplicates(rest)
    ensures k !in rest ==> NoDuplicates([k] + rest)
  {
  }

  lemma {:induction false} RemoveMembers(order: seq<Key>, k: Key)
    requires NoDuplicates(order)
    ensures NoDuplicates(Remove(order, k)) && forall x :: x in Remove(order, k) <==> x in order && x != k
  {
    if order != [] {
      RemoveMembers(order[1..], k);
      assert forall x :: x in order <==> x == order[0] || x in order[1..];
      NoDuplicatesCons(order[0], Remove(order[1..], k));
    }
  }

  lemma {:induction false} LookupSnapshot(order: seq<Key>, trees: map<Key, Tree>, k: Key)
    requires forall x :: x in order ==> x in trees
    ensures Lookup(Snapshot(order, trees), k) == if k in order then Some(trees[k]) else None
  {
    if order != [] {
      LookupSnapshot(order[1..], trees, k);
    }
  }

  lemma {:induction false} WithoutSnapshot(order: seq<Key>, trees: map<Key, Tree>, k: Key)
    requires forall x :: x in order ==> x in trees
    ensures forall x :: x in Remove(order, k) ==> x in trees
    ensures Snapshot(Remove(order, k), trees) == Without(Snapshot(order, trees), k)
  {
    if order != [] {
      WithoutSnapshot(order[1..], trees, k);
      if order[0] == k {
        assert Remove(order, k) == Remove(order[1..], k);
      } else {
        assert Remove(order, k)[1..] == Remove(order[1..], k);
      }
    }
  }

  lemma {:induction false} SnapshotConcat(a: seq<Key>, b: seq<Key>, trees: map<Key, Tree>)
    requires forall x :: x in a + b ==> x in trees
    ensures Snapshot(a + b, trees) == Snapshot(a, trees) + Snapshot(b, trees)
  {
    if a == [] {
      assert a + b == b;
    } else {
      assert (a + b)[1..] == a[1..] + b;
      SnapshotConcat(a[1..], b, trees);
    }
  }

  lemma MovedSnapshot(order: seq<Key>, trees: map<Key, Tree>, k: Key)
    requires k in trees && forall x :: x in order ==> x in trees
    ensures forall x :: x in Remove(order, k) + [k] ==> x in trees
    ensures Snapshot(Remove(order, k) + [k], trees) == Without(Snapshot(order, trees), k) + [(k, trees[k])]
  {
    WithoutSnapshot(order, trees, k);
    SnapshotConcat(Remove(order, k), [k], trees);
    assert [k][1..] == [];
  }

  lemma SnapshotAppend(order: seq<Key>, trees: map<Key, Tree>, k: Key, t: Tree)
    requires k !in trees && forall x :: x in order ==> x in trees
    ensures Snapshot(order + [k], trees[k := t]) == Snapshot(order, trees) + [(k, t)]
  {
    SnapshotFrame(order, trees, trees[k := t]);
    SnapshotConcat(order, [k], trees[k := t]);
    assert [k][1..] == [];
  }

  lemma SnapshotRest(order: seq<Key>, trees: map<Key, Tree>)
    requires order != [] && Lists(order, trees.Keys)
    ensures forall x :: x in order[1..] ==> x in Drop(trees, order[0])
    ensures Snapshot(order[1..], Drop(trees, order[0])) == Snapshot(order, trees)[1..]
  {
    ListsRest(order, trees);
    SnapshotFrame(order[1..], trees, Drop(trees, order[0]));
  }

  lemma {:induction false} SnapshotFrame(order: seq<Key>, t1: map<Key, Tree>, t2: map<Key, Tree>)
    requires forall x :: x in order ==> x in t1 && x in t2 && t1[x] == t2[x]
    ensures Snapshot(order, t1) == Snapshot(order, t2)
  {
    if order != [] {
      SnapshotFrame(order[1..], t1, t2);
    }
  }
}
