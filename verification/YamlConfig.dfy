/** The configuration reader: comments, lines, and the mapping parser that goes by indentation. */
module YamlConfig {
  import opened Prelude
  import opened Json

  /** A line that is not blank: its leading spaces and its content. */
  datatype Entry = Entry(indent: nat, text: Text)

  datatype Mapped = Mapped(fields: seq<(Text, Value)>, index: nat)

  // ---- characters ----

  const NEWLINE: int := '\n' as int
  const HASH: int := '#' as int
  const SPACE: int := ' ' as int

  /** Where Python's str.splitlines splits. */
  predicate IsBreak(c: int) {
    10 <= c <= 13 || 0x1C <= c <= 0x1E || c == 0x85 || c == 0x2028 || c == 0x2029
  }

  predicate IsQuote(c: int) {
    c == QUOTE || c == '\'' as int
  }

  function StripLeft(t: Text): Text {
    if t != [] && IsWhite(t[0]) then StripLeft(t[1..]) else t
  }

  function StripRight(t: Text): Text {
    if t != [] && IsWhite(t[|t| - 1]) then StripRight(t[..|t| - 1]) else t
  }

  function Strip(t: Text): Text {
    StripRight(StripLeft(t))
  }

  // ---- comments ----

  /** The quote that is open before position i, None when there is none. */
  function QuoteBefore(line: Text, i: nat): Option<int>
    requires i <= |line|
  {
    if i == 0 then None
    else
      var open := QuoteBefore(line, i - 1);
      var c := line[i - 1];
      if !IsQuote(c) then open
      else if open.None? then Some(c)
      else if open.value == c then None
      else open
  }

  /** A comment starts at i. */
  predicate CommentAt(line: Text, i: nat) {
    i < |line| && line[i] == HASH && QuoteBefore(line, i).None?
  }

  /** The line up to the first '#' outside quotes. */
  method StripComment(line: Text) returns (r: Text)
    ensures r <= line && (|r| < |line| ==> CommentAt(line, |r|)) && forall i :: 0 <= i < |r| ==> !CommentAt(line, i)
  {
    var inQuote: Option<int> := None;
    for index := 0 to |line|
      invariant inQuote == QuoteBefore(line, index) && forall i :: 0 <= i < index ==> !CommentAt(line, i)
    {
      var c := line[index];
      if IsQuote(c) {
        if inQuote.None? {
          inQuote := Some(c);
        } else if inQuote.value == c {
          inQuote := None;
        }
      } else if c == HASH && inQuote.None? {
        return line[..index];
      }
    }
    return line;
  }

  /** The first comment at or after i, the length of the line when there is none. */
  function CommentFrom(line: Text, i: nat): (j: nat)
    requires i <= |line|
    ensures i <= j <= |line| && (j < |line| ==> CommentAt(line, j)) && forall k :: i <= k < j ==> !CommentAt(line, k)
    decreases |line| - i
  {
    if i == |line| || CommentAt(line, i) then i else CommentFrom(line, i + 1)
  }

  function WithoutComment(line: Text): Text {
    line[..CommentFrom(line, 0)]
  }

  // ---- lines ----

  function BreakFrom(t: Text, i: nat): (j: nat)
    requires i <= |t|
    ensures i <= j <= |t| && (j < |t| ==> IsBreak(t[j])) && forall k :: i <= k < j ==> !IsBreak(t[k])
    decreases |t| - i
  {
    if i == |t| || IsBreak(t[i]) then i else BreakFrom(t, i + 1)
  }

  /** `splitlines`: a carriage return and a line feed are one break, and nothing follows the last break. */
  function SplitLines(t: Text): seq<Text> {
    if t == [] then []
    else
      var j := BreakFrom(t, 0);
      if j == |t| then [t]
      else [t[..j]] + SplitLines(t[if t[j] == '\r' as int && At(t, j + 1, NEWLINE) then j + 2 else j + 1..])
  }

  function LeadingSpaces(t: Text): nat {
    if t != [] && t[0] == SPACE then 1 + LeadingSpaces(t[1..]) else 0
  }

  function LineEntry(line: Text): Option<Entry> {
    var stripped := WithoutComment(line);
    if Strip(stripped) == [] then None else Some(Entry(LeadingSpaces(stripped), Strip(stripped)))
  }

  /** The entries of the first n lines. */
  function Entries(lines: seq<Text>, n: nat): seq<Entry>
    requires n <= |lines|
  {
    if n == 0 then []
    else Entries(lines, n - 1) + match LineEntry(lines[n - 1]) case None => [] case Some(e) => [e]
  }

  // ---- scalars ----

  predicate IsQuoted(t: Text) {
    |t| >= 2 && t[0] == t[|t| - 1] && IsQuote(t[0])
  }

  function LowerAscii(t: Text): Text {
    seq(|t|, k requires 0 <= k < |t| => if 'A' as int <= t[k] <= 'Z' as int then t[k] + 32 else t[k])
  }

  const NULL_WORDS: seq<string> := ["null", "~"]
  const TRUE_WORDS: seq<string> := ["true", "yes", "on"]
  const FALSE_WORDS: seq<string> := ["false", "no", "off"]

  predicate IsWord(t: Text, words: seq<string>) {
    exists k :: 0 <= k < |words| && |words[k]| == |t| && forall i :: 0 <= i < |t| ==> LowerAscii(t)[i] == words[k][i] as int
  }

  /** `number` is what Python's int, and after it float, make of a text. */
  function Scalar(t: Text, number: Text -> Option<Value>): Value {
    if IsQuoted(t) then Str(t[1..|t| - 1])
    else if IsWord(t, NULL_WORDS) then Null
    else if IsWord(t, TRUE_WORDS) then Bool(true)
    else if IsWord(t, FALSE_WORDS) then Bool(false)
    else if number(t).Some? then number(t).value
    else Str(t)
  }

  // ---- mappings ----

  function ColonFrom(t: Text, i: nat): (j: nat)
    requires i <= |t|
    ensures i <= j <= |t| && (j < |t| ==> t[j] == COLON) && forall k :: i <= k < j ==> t[k] != COLON
    decreases |t| - i
  {
    if i == |t| || t[i] == COLON then i else ColonFrom(t, i + 1)
  }

  /** A line `key: value`: the value is empty when nothing but white space follows the colon. */
  datatype Parts = Parts(key: Text, value: Text)

  /** None for a line without a colon or without a key. */
  function Partition(t: Text): Option<Parts> {
    var j := ColonFrom(t, 0);
    if j == |t| || Strip(t[..j]) == [] then None else Some(Parts(Strip(t[..j]), Strip(t[j + 1..])))
  }

  /** What a line says: nothing, a key with a scalar, or a key with a mapping to come. */
  datatype Line = Ignored | Field(key: Text, value: Value) | Heading(key: Text)

  function ReadLine(t: Text, number: Text -> Option<Value>): Line {
    match Partition(t)
    case None => Ignored
    case Some(Parts(key, value)) => if value != [] then Field(key, Scalar(value, number)) else Heading(key)
  }

  type Reader = Text -> Line

  function LineReader(number: Text -> Option<Value>): Reader {
    (t: Text) => ReadLine(t, number)
  }

  /** The mapping from entry i on, after the fields in `result`; it ends before the first entry that is not indented more
      than `base`. */
  function MappingFrom(tokens: seq<Entry>, i: nat, base: int, result: seq<(Text, Value)>, read: Reader): (m: Mapped)
    requires i <= |tokens|
    ensures i <= m.index <= |tokens| && (m.index < |tokens| ==> tokens[m.index].indent <= base)
    decreases |tokens| - i
  {
    if i == |tokens| || tokens[i].indent <= base then Mapped(result, i)
    else match read(tokens[i].text)
      case Ignored => MappingFrom(tokens, i + 1, base, result, read)
      case Field(key, value) => MappingFrom(tokens, i + 1, base, Put(result, key, value), read)
      case Heading(key) =>
        if i + 1 == |tokens| || tokens[i + 1].indent <= tokens[i].indent then
          MappingFrom(tokens, i + 1, base, Put(result, key, Obj([])), read)
        else
          var child := MappingFrom(tokens, i + 1, tokens[i + 1].indent - 1, [], read);
          MappingFrom(tokens, child.index, base, Put(result, key, Obj(child.fields)), read)
  }

  // One entry, by what its line says and what follows it.

  lemma IgnoredStep(tokens: seq<Entry>, i: nat, base: int, result: seq<(Text, Value)>, read: Reader)
    requires i < |tokens| && tokens[i].indent > base && read(tokens[i].text).Ignored?
    ensures MappingFrom(tokens, i, base, result, read) == MappingFrom(tokens, i + 1, base, result, read)
  {
  }

  lemma FieldStep(tokens: seq<Entry>, i: nat, base: int, result: seq<(Text, Value)>, read: Reader)
    requires i < |tokens| && tokens[i].indent > base && read(tokens[i].text).Field?
    ensures var line := read(tokens[i].text);
            MappingFrom(tokens, i, base, result, read) == MappingFrom(tokens, i + 1, base, Put(result, line.key, line.value), read)
  {
  }

  lemma HollowStep(tokens: seq<Entry>, i: nat, base: int, result: seq<(Text, Value)>, read: Reader)
    requires i < |tokens| && tokens[i].indent > base && read(tokens[i].text).Heading?
    requires i + 1 == |tokens| || tokens[i + 1].indent <= tokens[i].indent
    ensures MappingFrom(tokens, i, base, result, read)
         == MappingFrom(tokens, i + 1, base, Put(result, read(tokens[i].text).key, Obj([])), read)
  {
  }

  lemma NestedStep(tokens: seq<Entry>, i: nat, base: int, result: seq<(Text, Value)>, read: Reader, child: Mapped)
    requires i + 1 < |tokens| && tokens[i].indent > base && read(tokens[i].text).Heading?
    requires tokens[i + 1].indent > tokens[i].indent
    requires child == MappingFrom(tokens, i + 1, tokens[i + 1].indent - 1, [], read)
    ensures MappingFrom(tokens, i, base, result, read)
         == MappingFrom(tokens, child.index, base, Put(result, read(tokens[i].text).key, Obj(child.fields)), read)
  {
  }

  method ParseMapping(tokens: seq<Entry>, start: nat, base: int, read: Reader) returns (m: Mapped)
    requires start <= |tokens|
    ensures m == MappingFrom(tokens, start, base, [], read)
    decreases |tokens| - start
  {
    var result: seq<(Text, Value)> := [];
    var index := start;
    while index < |tokens|
      invariant start <= index <= |tokens|
      invariant MappingFrom(tokens, start, base, [], read) == MappingFrom(tokens, index, base, result, read)
      decreases |tokens| - index
    {
      var entry := tokens[index];
      if entry.indent <= base {
        return Mapped(result, index);
      }
      var line := read(entry.text);
      if line.Ignored? {
        IgnoredStep(tokens, index, base, result, read);
        index := index + 1;
        continue;
      }
      if line.Field? {
        FieldStep(tokens, index, base, result, read);
        result, index := Put(result, line.key, line.value), index + 1;
        continue;
      }
      if index + 1 == |tokens| || tokens[index + 1].indent <= entry.indent {
        HollowStep(tokens, index, base, result, read);
        result, index := Put(result, line.key, Obj([])), index + 1;
        continue;
      }
      var child := ParseMapping(tokens, index + 1, tokens[index + 1].indent - 1, read);
      NestedStep(tokens, index, base, result, read, child);
      result, index := Put(result, line.key, Obj(child.fields)), child.index;
    }
    return Mapped(result, index);
  }

  function LoadText(t: Text, number: Text -> Option<Value>): seq<(Text, Value)> {
    var lines := SplitLines(t);
    MappingFrom(Entries(lines, |lines|), 0, -1, [], LineReader(number)).fields
  }

  method Load(t: Text, number: Text -> Option<Value>) returns (fields: seq<(Text, Value)>)
    ensures fields == LoadText(t, number)
  {
    var tokens: seq<Entry> := [];
    var lines := SplitLines(t);
    for n := 0 to |lines|
      invariant tokens == Entries(lines, n)
    {
      var stripped := StripComment(lines[n]);
      FirstComment(lines[n], stripped);
      var content := Strip(stripped);
      if content == [] {
        continue;
      }
      tokens := tokens + [Entry(LeadingSpaces(stripped), content)];
    }
    if tokens == [] {
      return [];
    }
    var m := ParseMapping(tokens, 0, -1, LineReader(number));
    return m.fields;
  }

  /** The place of the first comment is unique. */
  lemma FirstComment(line: Text, r: Text)
    requires r <= line && (|r| < |line| ==> CommentAt(line, |r|)) && forall i :: 0 <= i < |r| ==> !CommentAt(line, i)
    ensures r == WithoutComment(line)
  {
    var j := CommentFrom(line, 0);
    assert |r| == j;
  }
}
