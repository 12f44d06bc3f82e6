/** Nested mappings written as indented lines, and the mapping parser that rebuilds them. */
module YamlFlatten {
  import opened Prelude
  import opened Json
  import opened YamlConfig

  /** The part of a line up to its value, with the white space around the colon. */
  datatype Head = Head(key: Text, before: Text, after: Text)

  /** A line of a mapping: one that is skipped, a scalar, an empty mapping, or a mapping with a deeper indent of its own. */
  datatype Node =
    | Skipped(text: Text)
    | Leaf(head: Head, value: Text)
    | Hollow(head: Head)
    | Nested(head: Head, child: Block)

  datatype Block = Block(indent: nat, nodes: seq<Node>)

  // ---- well-formedness ----

  predicate AllWhite(t: Text) {
    forall k :: 0 <= k < |t| ==> IsWhite(t[k])
  }

  predicate Trimmed(t: Text) {
    t != [] && !IsWhite(t[0]) && !IsWhite(t[|t| - 1])
  }

  predicate GoodHead(h: Head) {
    Trimmed(h.key) && COLON !in h.key && AllWhite(h.before) && AllWhite(h.after)
  }

  predicate Good(b: Block) {
    forall k :: 0 <= k < |b.nodes| ==> GoodNode(b.nodes[k], b.indent)
  }

  predicate GoodNode(n: Node, indent: nat) {
    match n
    case Skipped(text) => Partition(text).None?
    case Leaf(head, value) => GoodHead(head) && Trimmed(value)
    case Hollow(head) => GoodHead(head)
    case Nested(head, child) => GoodHead(head) && child.nodes != [] && child.indent > indent && Good(child)
  }

  // ---- lines ----

  function HeadText(h: Head): Text {
    h.key + h.before + [COLON] + h.after
  }

  function NodeText(n: Node): Text {
    match n
    case Skipped(text) => text
    case Leaf(head, value) => HeadText(head) + value
    case _ => HeadText(n.head)
  }

  /** The entries of a block from its k-th node on. */
  function FlattenFrom(b: Block, k: nat): seq<Entry>
    requires k <= |b.nodes|
    decreases b, |b.nodes| - k
  {
    if k == |b.nodes| then []
    else
      var n := b.nodes[k];
      [Entry(b.indent, NodeText(n))] + ((if n.Nested? then FlattenFrom(n.child, 0) else []) + FlattenFrom(b, k + 1))
  }

  // ---- meaning ----

  /** The fields that the first n lines build; `scalar` gives the value of a scalar's text. */
  function Meaning(b: Block, n: nat, scalar: Text -> Value): seq<(Text, Value)>
    requires n <= |b.nodes|
    decreases b, n
  {
    if n == 0 then []
    else
      var fields := Meaning(b, n - 1, scalar);
      match b.nodes[n - 1]
      case Skipped(_) => fields
      case Leaf(head, value) => Put(fields, head.key, scalar(value))
      case Hollow(head) => Put(fields, head.key, Obj([]))
      case Nested(head, child) => Put(fields, head.key, Obj(Meaning(child, |child.nodes|, scalar)))
  }

  /** The tree of the first n lines, read off line by line. */
  function Tree(b: Block, n: nat, scalar: Text -> Value): seq<(Text, Value)>
    requires n <= |b.nodes|
    decreases b, n
  {
    if n == 0 then []
    else
      Tree(b, n - 1, scalar) +
      match b.nodes[n - 1]
      case Skipped(_) => []
      case Leaf(head, value) => [(head.key, scalar(value))]
      case Hollow(head) => [(head.key, Obj([]))]
      case Nested(head, child) => [(head.key, Obj(Tree(child, |child.nodes|, scalar)))]
  }

  predicate DistinctKeys(b: Block) {
    && (forall j, k :: 0 <= j < k < |b.nodes| && !b.nodes[j].Skipped? && !b.nodes[k].Skipped? ==>
          b.nodes[j].head.key != b.nodes[k].head.key)
    && (forall k :: 0 <= k < |b.nodes| && b.nodes[k].Nested? ==> DistinctKeys(b.nodes[k].child))
  }

  /** With distinct keys every line adds its own field. */
  lemma {:induction false} MeaningIsTree(b: Block, n: nat, scalar: Text -> Value)
    requires DistinctKeys(b) && n <= |b.nodes|
    ensures Meaning(b, n, scalar) == Tree(b, n, scalar)
    ensures forall j :: 0 <= j < |Tree(b, n, scalar)| ==>
              exists k :: 0 <= k < n && !b.nodes[k].Skipped? && b.nodes[k].head.key == Tree(b, n, scalar)[j].0
    decreases b, n
  {
    if n > 0 {
      MeaningIsTree(b, n - 1, scalar);
      var node := b.nodes[n - 1];
      if !node.Skipped? {
        if node.Nested? {
          MeaningIsTree(node.child, |node.child.nodes|, scalar);
        }
        var value := Tree(b, n, scalar)[|Tree(b, n, scalar)| - 1].1;
        PutFresh(Tree(b, n - 1, scalar), node.head.key, value);
      }
    }
  }

  // ---- reading a line ----

  lemma {:induction false} StripLeftWhite(space: Text, t: Text)
    requires AllWhite(space) && (t == [] || !IsWhite(t[0]))
    ensures StripLeft(space + t) == t
  {
    if space == [] {
      assert space + t == t;
    } else {
      assert (space + t)[1..] == space[1..] + t;
      StripLeftWhite(space[1..], t);
    }
  }

  lemma {:induction false} StripRightWhite(t: Text, space: Text)
    requires AllWhite(space) && (t == [] || !IsWhite(t[|t| - 1]))
    ensures StripRight(t + space) == t
  {
    if space == [] {
      assert t + space == t;
    } else {
      var front := space[..|space| - 1];
      assert (t + space)[..|t + space| - 1] == t + front;
      StripRightWhite(t, front);
    }
  }

  lemma StripAround(before: Text, t: Text, after: Text)
    requires AllWhite(before) && AllWhite(after) && (t == [] || Trimmed(t))
    ensures Strip(before + (t + after)) == t
  {
    if t == [] {
      assert before + (t + after) == (before + after) + [];
      StripLeftWhite(before + after, []);
    } else {
      StripLeftWhite(before, t + after);
      StripRightWhite(t, after);
    }
  }

  lemma StripAfter(t: Text, after: Text)
    requires AllWhite(after) && Trimmed(t)
    ensures Strip(t + after) == t
  {
    StripAround([], t, after);
    assert [] + (t + after) == t + after;
  }

  lemma StripBefore(before: Text, t: Text)
    requires AllWhite(before) && (t == [] || Trimmed(t))
    ensures Strip(before + t) == t
  {
    StripAround(before, t, []);
    assert t + [] == t;
  }

  lemma FirstColon(a: Text, b: Text)
    requires COLON !in a
    ensures var t := a + ([COLON] + b); ColonFrom(t, 0) == |a| && t[..|a|] == a && t[|a| + 1..] == b
  {
    var t := a + ([COLON] + b);
    assert t[|a|] == COLON;
    assert forall k :: 0 <= k < |a| ==> t[k] == a[k];
  }

  lemma NoColonInWhite(t: Text)
    requires AllWhite(t)
    ensures COLON !in t
  {
  }

  lemma LineParts(h: Head, value: Text)
    requires GoodHead(h) && (value == [] || Trimmed(value))
    ensures Partition(HeadText(h) + value) == Some(Parts(h.key, value))
  {
    var left, right := h.key + h.before, h.after + value;
    NoColonInWhite(h.before);
    FirstColon(left, right);
    StripAfter(h.key, h.before);
    StripBefore(h.after, value);
    LineText(h, value);
    PartitionAt(HeadText(h) + value, |left|);
  }

  lemma LineText(h: Head, value: Text)
    ensures HeadText(h) + value == (h.key + h.before) + ([COLON] + (h.after + value))
  {
  }

  lemma PartitionAt(t: Text, j: nat)
    requires j < |t| && ColonFrom(t, 0) == j && Strip(t[..j]) != []
    ensures Partition(t) == Some(Parts(Strip(t[..j]), Strip(t[j + 1..])))
  {
  }

  function NodeLine(n: Node, scalar: Text -> Value): Line {
    match n
    case Skipped(_) => Ignored
    case Leaf(head, value) => Field(head.key, scalar(value))
    case _ => Heading(n.head.key)
  }

  /** The reader takes every well-formed line for what it is. */
  ghost predicate Reads(read: Reader, scalar: Text -> Value) {
    forall n, indent {:trigger read(NodeText(n)), GoodNode(n, indent)} :: GoodNode(n, indent) ==> read(NodeText(n)) == NodeLine(n, scalar)
  }

  function ScalarReader(number: Text -> Option<Value>): Text -> Value {
    (t: Text) => Scalar(t, number)
  }

  lemma ReaderReads(number: Text -> Option<Value>)
    ensures Reads(LineReader(number), ScalarReader(number))
  {
    forall n, indent | GoodNode(n, indent)
      ensures ReadLine(NodeText(n), number) == NodeLine(n, ScalarReader(number))
    {
      if !n.Skipped? {
        LineParts(n.head, if n.Leaf? then n.value else []);
        assert HeadText(n.head) + [] == HeadText(n.head);
      }
    }
  }

  // ---- reading a block ----

  /** The entries `s` stand in `tokens` at i. */
  predicate Placed(tokens: seq<Entry>, i: nat, s: seq<Entry>)
    decreases |s|
  {
    if s == [] then i <= |tokens| else i < |tokens| && tokens[i] == s[0] && Placed(tokens, i + 1, s[1..])
  }

  lemma {:induction false} PlacedIsSlice(tokens: seq<Entry>, i: nat, s: seq<Entry>)
    ensures Placed(tokens, i, s) <==> i + |s| <= |tokens| && tokens[i..i + |s|] == s
    decreases |s|
  {
    if s == [] {
    } else if i < |tokens| {
      PlacedIsSlice(tokens, i + 1, s[1..]);
      if i + |s| <= |tokens| {
        assert tokens[i..i + |s|] == [tokens[i]] + tokens[i + 1..i + |s|];
        assert s == [s[0]] + s[1..];
      }
    }
  }

  lemma PlacedSplit(tokens: seq<Entry>, i: nat, a: seq<Entry>, b: seq<Entry>)
    requires Placed(tokens, i, a + b)
    ensures Placed(tokens, i, a) && Placed(tokens, i + |a|, b)
  {
    PlacedIsSlice(tokens, i, a + b);
    PlacedIsSlice(tokens, i, a);
    PlacedIsSlice(tokens, i + |a|, b);
    var s := tokens[i..i + |a + b|];
    assert s[..|a|] == a && s[|a|..] == b;
    assert s[..|a|] == tokens[i..i + |a|] && s[|a|..] == tokens[i + |a|..i + |a| + |b|];
  }

  predicate Stops(tokens: seq<Entry>, j: nat, base: int) {
    j >= |tokens| || tokens[j].indent <= base
  }

  /** The number of entries of a block from its k-th node on. */
  function Size(b: Block, k: nat): nat
    requires k <= |b.nodes|
    decreases b, |b.nodes| - k
  {
    if k == |b.nodes| then 0
    else 1 + (if b.nodes[k].Nested? then Size(b.nodes[k].child, 0) else 0) + Size(b, k + 1)
  }

  /** The same as Placed, node by node. */
  predicate Stands(b: Block, k: nat, tokens: seq<Entry>, i: nat)
    requires k <= |b.nodes|
    decreases b, |b.nodes| - k
  {
    k == |b.nodes|
    || (&& i < |tokens| && tokens[i] == Entry(b.indent, NodeText(b.nodes[k]))
        && (b.nodes[k].Nested? ==> Stands(b.nodes[k].child, 0, tokens, i + 1))
        && Stands(b, k + 1, tokens, NextAt(b, k, i)))
  }

  /** Where the node after the k-th one stands. */
  function NextAt(b: Block, k: nat, i: nat): nat
    requires k < |b.nodes|
  {
    i + 1 + if b.nodes[k].Nested? then Size(b.nodes[k].child, 0) else 0
  }

  lemma {:induction false} FlattenStands(b: Block, k: nat, tokens: seq<Entry>, i: nat)
    requires k <= |b.nodes| && Placed(tokens, i, FlattenFrom(b, k))
    ensures Stands(b, k, tokens, i) && |FlattenFrom(b, k)| == Size(b, k)
    decreases b, |b.nodes| - k
  {
    if k < |b.nodes| {
      var n := b.nodes[k];
      var child := NodePlaced(b, k, tokens, i);
      if n.Nested? {
        FlattenStands(n.child, 0, tokens, i + 1);
      }
      FlattenStands(b, k + 1, tokens, i + 1 + |child|);
    }
  }

  /** Where the k-th node, its child and what follows it stand. */
  lemma NodePlaced(b: Block, k: nat, tokens: seq<Entry>, i: nat) returns (child: seq<Entry>)
    requires k < |b.nodes| && Placed(tokens, i, FlattenFrom(b, k))
    ensures i < |tokens| && tokens[i] == Entry(b.indent, NodeText(b.nodes[k]))
    ensures child == if b.nodes[k].Nested? then FlattenFrom(b.nodes[k].child, 0) else []
    ensures Placed(tokens, i + 1, child) && Placed(tokens, i + 1 + |child|, FlattenFrom(b, k + 1))
    ensures |FlattenFrom(b, k)| == 1 + |child| + |FlattenFrom(b, k + 1)|
  {
    var n := b.nodes[k];
    child := if n.Nested? then FlattenFrom(n.child, 0) else [];
    ThreePlaced(tokens, i, Entry(b.indent, NodeText(n)), child, FlattenFrom(b, k + 1));
  }

  lemma ThreePlaced(tokens: seq<Entry>, i: nat, first: Entry, child: seq<Entry>, rest: seq<Entry>)
    requires Placed(tokens, i, [first] + (child + rest))
    ensures i < |tokens| && tokens[i] == first
    ensures Placed(tokens, i + 1, child) && Placed(tokens, i + 1 + |child|, rest)
  {
    PlacedSplit(tokens, i, [first], child + rest);
    PlacedSplit(tokens, i + 1, child, rest);
  }

  /** The entry where the k-th node stands, or the one after the last node, is not indented more than the block. */
  lemma NextIndent(b: Block, k: nat, tokens: seq<Entry>, i: nat, base: int)
    requires k <= |b.nodes| && Stands(b, k, tokens, i) && base < b.indent && Stops(tokens, i + Size(b, k), base)
    ensures Stops(tokens, i, b.indent)
  {
  }

  /** Where the nodes after the k-th one stand. */
  lemma AfterNode(b: Block, k: nat, tokens: seq<Entry>, i: nat, end: nat, base: int) returns (next: nat)
    requires k < |b.nodes| && base < b.indent
    requires Stands(b, k, tokens, i) && end == i + Size(b, k) && end <= |tokens| && Stops(tokens, end, base)
    ensures next == NextAt(b, k, i) && next <= |tokens| && Stops(tokens, next, b.indent)
    ensures Stands(b, k + 1, tokens, next) && end == next + Size(b, k + 1)
  {
    next := NextAt(b, k, i);
    NextIndent(b, k + 1, tokens, next, base);
  }

  /** The lines of a block, wherever they stand before an entry indented no more than `base`, are read as its meaning, up
      to that entry. */
  lemma {:induction false} BlockReads(b: Block, k: nat, tokens: seq<Entry>, i: nat, end: nat, base: int, read: Reader,
                                      scalar: Text -> Value)
    requires Reads(read, scalar) && Good(b) && k <= |b.nodes| && base < b.indent
    requires Stands(b, k, tokens, i) && end == i + Size(b, k) && end <= |tokens| && Stops(tokens, end, base)
    ensures MappingFrom(tokens, i, base, Meaning(b, k, scalar), read) == Mapped(Meaning(b, |b.nodes|, scalar), end)
    decreases b, |b.nodes| - k
  {
    var whole := Mapped(Meaning(b, |b.nodes|, scalar), end);
    if k == |b.nodes| {
      MappingStops(tokens, i, base, Meaning(b, k, scalar), read);
    } else {
      var next := AfterNode(b, k, tokens, i, end, base);
      BlockReads(b, k + 1, tokens, next, end, base, read, scalar);
      assert GoodNode(b.nodes[k], b.indent);
      NodeReads(b, k, tokens, i, next, base, read, scalar, whole);
    }
  }

  lemma MappingStops(tokens: seq<Entry>, i: nat, base: int, result: seq<(Text, Value)>, read: Reader)
    requires i <= |tokens| && Stops(tokens, i, base)
    ensures MappingFrom(tokens, i, base, result, read) == Mapped(result, i)
  {
  }

  /** The k-th node is read, and then whatever is made of the nodes after it. */
  lemma NodeReads(b: Block, k: nat, tokens: seq<Entry>, i: nat, next: nat, base: int, read: Reader, scalar: Text -> Value,
                  rest: Mapped)
    requires Reads(read, scalar) && k < |b.nodes| && GoodNode(b.nodes[k], b.indent) && base < b.indent
    requires Stands(b, k, tokens, i) && next == NextAt(b, k, i) && next <= |tokens| && Stops(tokens, next, b.indent)
    requires MappingFrom(tokens, next, base, Meaning(b, k + 1, scalar), read) == rest
    ensures MappingFrom(tokens, i, base, Meaning(b, k, scalar), read) == rest
    decreases b, |b.nodes| - k, 0
  {
    var result := Meaning(b, k, scalar);
    match b.nodes[k]
    case Skipped(_) => IgnoredStep(tokens, i, base, result, read);
    case Leaf(_, _) => FieldStep(tokens, i, base, result, read);
    case Hollow(_) => HollowStep(tokens, i, base, result, read);
    case Nested(head, child) => NestedReads(head, child, b.indent, tokens, i, base, result, read, scalar);
  }

  lemma NestedReads(head: Head, child: Block, indent: nat, tokens: seq<Entry>, i: nat, base: int,
                    result: seq<(Text, Value)>, read: Reader, scalar: Text -> Value)
    requires Reads(read, scalar) && GoodNode(Nested(head, child), indent) && base < indent
    requires i < |tokens| && tokens[i] == Entry(indent, NodeText(Nested(head, child)))
    requires var next := i + 1 + Size(child, 0);
             next <= |tokens| && Stands(child, 0, tokens, i + 1) && Stops(tokens, next, indent)
    ensures MappingFrom(tokens, i, base, result, read)
         == MappingFrom(tokens, i + 1 + Size(child, 0), base,
                        Put(result, head.key, Obj(Meaning(child, |child.nodes|, scalar))), read)
    decreases child, |child.nodes| + 2
  {
    var end := i + 1 + Size(child, 0);
    ChildReads(child, child.indent - 1, tokens, i + 1, end, read, scalar);
    NestedStep(tokens, i, base, result, read, Mapped(Meaning(child, |child.nodes|, scalar), end));
  }

  /** A nested block, read with the base that its first entry gives. */
  lemma ChildReads(child: Block, base: int, tokens: seq<Entry>, i: nat, end: nat, read: Reader, scalar: Text -> Value)
    requires Reads(read, scalar) && Good(child) && base < child.indent
    requires Stands(child, 0, tokens, i) && end == i + Size(child, 0) && end <= |tokens| && Stops(tokens, end, base)
    ensures MappingFrom(tokens, i, base, [], read) == Mapped(Meaning(child, |child.nodes|, scalar), end)
    decreases child, |child.nodes| + 1
  {
    assert Meaning(child, 0, scalar) == [];
    BlockReads(child, 0, tokens, i, end, base, read, scalar);
  }

  /** Un-flattening rebuilds every tree of mappings with distinct keys and stops where it should. */
  lemma TreeIsRebuilt(b: Block, rest: seq<Entry>, base: int, number: Text -> Option<Value>)
    requires Good(b) && DistinctKeys(b) && base < b.indent && (rest != [] ==> rest[0].indent <= base)
    ensures MappingFrom(FlattenFrom(b, 0) + rest, 0, base, [], LineReader(number))
         == Mapped(Tree(b, |b.nodes|, ScalarReader(number)), |FlattenFrom(b, 0)|)
  {
    var tokens := FlattenFrom(b, 0) + rest;
    PlacedIsSlice(tokens, 0, FlattenFrom(b, 0));
    FlattenStands(b, 0, tokens, 0);
    ReaderReads(number);
    ChildReads(b, base, tokens, 0, |FlattenFrom(b, 0)|, LineReader(number), ScalarReader(number));
    MeaningIsTree(b, |b.nodes|, ScalarReader(number));
  }

  // ---- whole documents ----

  function JoinLines(lines: seq<Text>): Text {
    if lines == [] then [] else lines[0] + ([NEWLINE] + JoinLines(lines[1..]))
  }

  predicate Unbroken(line: Text) {
    forall k :: 0 <= k < |line| ==> !IsBreak(line[k])
  }

  lemma {:induction false} SplitUndoesJoin(lines: seq<Text>)
    requires forall k :: 0 <= k < |lines| ==> Unbroken(lines[k])
    ensures SplitLines(JoinLines(lines)) == lines
  {
    if lines != [] {
      SplitFirst(lines[0], JoinLines(lines[1..]));
      SplitUndoesJoin(lines[1..]);
    }
  }

  lemma SplitFirst(line: Text, rest: Text)
    requires Unbroken(line)
    ensures SplitLines(line + ([NEWLINE] + rest)) == [line] + SplitLines(rest)
  {
    var t, j := line + ([NEWLINE] + rest), |line|;
    assert t[j] == NEWLINE && t[..j] == line && t[j + 1..] == rest;
    assert forall k :: 0 <= k < j ==> t[k] == line[k];
    assert BreakFrom(t, 0) == j;
  }

  /** A document whose lines, comments and blank lines aside, are those of a block loads as the block's tree. */
  lemma DocumentLoads(b: Block, lines: seq<Text>, number: Text -> Option<Value>)
    requires Good(b) && DistinctKeys(b) && (forall k :: 0 <= k < |lines| ==> Unbroken(lines[k]))
    requires Entries(lines, |lines|) == FlattenFrom(b, 0)
    ensures LoadText(JoinLines(lines), number) == Tree(b, |b.nodes|, ScalarReader(number))
  {
    SplitUndoesJoin(lines);
    TreeIsRebuilt(b, [], -1, number);
    assert FlattenFrom(b, 0) + [] == FlattenFrom(b, 0);
  }

  function Spaces(n: nat): Text {
    seq(n, _ => SPACE)
  }

  lemma {:induction false} QuoteAfterPlain(plain: Text, t: Text, i: nat)
    requires i <= |t| && forall k :: 0 <= k < |plain| ==> !IsQuote(plain[k])
    ensures QuoteBefore(plain + t, |plain| + i) == QuoteBefore(t, i)
  {
    if i > 0 {
      QuoteAfterPlain(plain, t, i - 1);
    } else if plain != [] {
      var front := plain[..|plain| - 1];
      assert plain + t == front + ([plain[|plain| - 1]] + t);
      QuoteAfterPlain(front, [plain[|plain| - 1]] + t, 0);
    }
  }

  lemma {:induction false} QuoteOfPrefix(t: Text, more: Text, i: nat)
    requires i <= |t|
    ensures QuoteBefore(t + more, i) == QuoteBefore(t, i)
  {
    if i > 0 {
      QuoteOfPrefix(t, more, i - 1);
    }
  }

  lemma {:induction false} QuoteOverPlain(t: Text, plain: Text, more: Text, i: nat)
    requires i <= |plain| && forall k :: 0 <= k < |plain| ==> !IsQuote(plain[k])
    ensures QuoteBefore(t + plain + more, |t| + i) == QuoteBefore(t, |t|)
  {
    if i > 0 {
      QuoteOverPlain(t, plain, more, i - 1);
    } else {
      assert t + plain + more == t + (plain + more);
      QuoteOfPrefix(t, plain + more, |t|);
    }
  }

  /** Leading spaces, a content without a comment, and white space with or without a comment after it: the entry is the
      content with its indent, provided that no quote is open where the comment starts. */
  lemma LineReads(indent: nat, text: Text, space: Text, comment: Text)
    requires Trimmed(text) && AllWhite(space) && forall i :: 0 <= i < |text| ==> !CommentAt(text, i)
    requires comment != [] ==> comment[0] == HASH && QuoteBefore(text, |text|).None?
    ensures LineEntry(Spaces(indent) + (text + space + comment)) == Some(Entry(indent, text))
  {
    var line, end := LineOf(indent, text, space, comment);
    CommentPlace(line, end);
    EntryOf(line, end, indent, text);
  }

  /** The line, where its comment starts, and what is left of it without the comment. */
  lemma LineOf(indent: nat, text: Text, space: Text, comment: Text) returns (line: Text, end: nat)
    requires Trimmed(text) && AllWhite(space) && forall i :: 0 <= i < |text| ==> !CommentAt(text, i)
    requires comment != [] ==> comment[0] == HASH && QuoteBefore(text, |text|).None?
    ensures line == Spaces(indent) + (text + space + comment) && end <= |line| && (end == |line| || CommentAt(line, end))
    ensures forall i :: 0 <= i < end ==> !CommentAt(line, i)
    ensures Strip(line[..end]) == text && LeadingSpaces(line[..end]) == indent
  {
    line, end := Spaces(indent) + (text + space + comment), indent + |text| + |space|;
    forall i | 0 <= i < end
      ensures !CommentAt(line, i)
    {
      NoCommentBefore(indent, text, space, comment, i);
    }
    CommentStarts(indent, text, space, comment);
    LineContent(indent, text, space, comment);
  }

  lemma EntryOf(line: Text, end: nat, indent: nat, text: Text)
    requires end <= |line| && WithoutComment(line) == line[..end] && text != []
    requires Strip(line[..end]) == text && LeadingSpaces(line[..end]) == indent
    ensures LineEntry(line) == Some(Entry(indent, text))
  {
  }

  lemma CommentPlace(line: Text, end: nat)
    requires end <= |line| && (end == |line| || CommentAt(line, end)) && forall i :: 0 <= i < end ==> !CommentAt(line, i)
    ensures WithoutComment(line) == line[..end]
  {
  }

  /** Where the comment of the line starts. */
  lemma CommentStarts(indent: nat, text: Text, space: Text, comment: Text)
    requires AllWhite(space)
    requires comment != [] ==> comment[0] == HASH && QuoteBefore(text, |text|).None?
    ensures var line, end := Spaces(indent) + (text + space + comment), indent + |text| + |space|;
            end == |line| || CommentAt(line, end)
  {
    if comment != [] {
      var body := text + space + comment;
      QuoteAfterPlain(Spaces(indent), body, |text| + |space|);
      QuoteOverPlain(text, space, comment, |space|);
      assert body[|text| + |space|] == comment[0];
      assert (Spaces(indent) + body)[indent + |text| + |space|] == body[|text| + |space|];
    }
  }

  /** What is left of the line without its comment. */
  lemma LineContent(indent: nat, text: Text, space: Text, comment: Text)
    requires Trimmed(text) && AllWhite(space)
    ensures var line, end := Spaces(indent) + (text + space + comment), indent + |text| + |space|;
            Strip(line[..end]) == text && LeadingSpaces(line[..end]) == indent
  {
    var line, end := Spaces(indent) + (text + space + comment), indent + |text| + |space|;
    assert line[..end] == Spaces(indent) + (text + space);
    StripAround(Spaces(indent), text, space);
    CountSpaces(indent, text + space);
  }

  lemma NoCommentBefore(indent: nat, text: Text, space: Text, comment: Text, i: nat)
    requires AllWhite(space) && i < indent + |text| + |space|
    requires forall i :: 0 <= i < |text| ==> !CommentAt(text, i)
    ensures !CommentAt(Spaces(indent) + (text + space + comment), i)
  {
    var body := text + space + comment;
    var line := Spaces(indent) + body;
    if i < indent {
      assert line[i] == Spaces(indent)[i];
    } else {
      var k := i - indent;
      assert line[i] == body[k];
      if k < |text| {
        assert body[k] == text[k] && !CommentAt(text, k);
        QuoteAfterPlain(Spaces(indent), body, k);
        assert body == text + (space + comment);
        QuoteOfPrefix(text, space + comment, k);
      } else {
        assert body[k] == space[k - |text|];
      }
    }
  }

  lemma {:induction false} CountSpaces(n: nat, t: Text)
    requires t != [] && t[0] != SPACE
    ensures LeadingSpaces(Spaces(n) + t) == n
  {
    if n == 0 {
      assert Spaces(0) + t == t;
    } else {
      assert (Spaces(n) + t)[1..] == Spaces(n - 1) + t;
      CountSpaces(n - 1, t);
    }
  }
}
