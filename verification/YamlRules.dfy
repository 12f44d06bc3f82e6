/** Scalars, quotes, lines and keys of the configuration reader, said in literal characters. */
module YamlRules {
  import opened Prelude
  import opened Json
  import opened YamlConfig
  import opened YamlFlatten

  // ---- white space ----

  /** Everything that str.strip removes. */
  lemma WhiteIs(c: int)
    ensures IsWhite(c)
       <==> c in {0x09, 0x0A, 0x0B, 0x0C, 0x0D, 0x1C, 0x1D, 0x1E, 0x1F, 0x20, 0x85, 0xA0, 0x1680, 0x2000, 0x2001, 0x2002, 0x2003,
                  0x2004, 0x2005, 0x2006, 0x2007, 0x2008, 0x2009, 0x200A, 0x2028, 0x2029, 0x202F, 0x205F, 0x3000}
  {
  }

  // ---- scalars ----

  /** The word in any mixture of cases. */
  ghost predicate Spells(t: Text, word: string) {
    |t| == |word| && forall k :: 0 <= k < |t| ==> t[k] == word[k] as int || ('a' <= word[k] <= 'z' && t[k] == word[k] as int - 32)
  }

  /** A word in lower case. */
  predicate IsLowerWord(word: string) {
    forall k :: 0 <= k < |word| ==> 'a' <= word[k] <= 'z' || word[k] == '~'
  }

  lemma SpellsIff(t: Text, words: seq<string>, k: nat)
    requires k < |words| && IsLowerWord(words[k])
    ensures Spells(t, words[k])
       <==> |words[k]| == |t| && forall i :: 0 <= i < |t| ==> LowerAscii(t)[i] == words[k][i] as int
  {
  }

  lemma WordsSpelled(t: Text, words: seq<string>)
    requires forall k :: 0 <= k < |words| ==> IsLowerWord(words[k])
    ensures IsWord(t, words) <==> exists k :: 0 <= k < |words| && Spells(t, words[k])
  {
    forall k | 0 <= k < |words|
      ensures Spells(t, words[k])
         <==> |words[k]| == |t| && forall i :: 0 <= i < |t| ==> LowerAscii(t)[i] == words[k][i] as int
    {
      SpellsIff(t, words, k);
    }
  }

  lemma NullIff(t: Text)
    ensures IsWord(t, NULL_WORDS) <==> Spells(t, "null") || Spells(t, "~")
  {
    var w := NULL_WORDS;
    assert |w| == 2 && w[0] == "null" && w[1] == "~";
    WordsSpelled(t, w);
  }

  lemma TrueIff(t: Text)
    ensures IsWord(t, TRUE_WORDS) <==> Spells(t, "true") || Spells(t, "yes") || Spells(t, "on")
  {
    var w := TRUE_WORDS;
    assert |w| == 3 && w[0] == "true" && w[1] == "yes" && w[2] == "on";
    WordsSpelled(t, w);
  }

  lemma FalseIff(t: Text)
    ensures IsWord(t, FALSE_WORDS) <==> Spells(t, "false") || Spells(t, "no") || Spells(t, "off")
  {
    var w := FALSE_WORDS;
    assert |w| == 3 && w[0] == "false" && w[1] == "no" && w[2] == "off";
    WordsSpelled(t, w);
  }

  /** What the text of a scalar means: quotes come off and make it a string; else three groups of words in any case; else
      what Python's number conversions say; else the text itself. */
  lemma ScalarExactly(t: Text, number: Text -> Option<Value>)
    ensures var v := Scalar(t, number);
            if |t| >= 2 && t[0] == t[|t| - 1] && (t[0] == '"' as int || t[0] == '\'' as int) then v == Str(t[1..|t| - 1])
            else if Spells(t, "null") || Spells(t, "~") then v == Null
            else if Spells(t, "true") || Spells(t, "yes") || Spells(t, "on") then v == Bool(true)
            else if Spells(t, "false") || Spells(t, "no") || Spells(t, "off") then v == Bool(false)
            else if number(t).Some? then v == number(t).value
            else v == Str(t)
  {
    NullIff(t);
    TrueIff(t);
    FalseIff(t);
  }

  // ---- lines ----

  /** A line without a colon, or with nothing but white space before its first colon, is ignored; these and no others. */
  lemma IgnoredIff(t: Text, number: Text -> Option<Value>)
    ensures ReadLine(t, number).Ignored?
       <==> (forall k :: 0 <= k < |t| ==> t[k] != ':' as int) || exists j :: BeforeColon(t, j)
  {
    var j := ColonFrom(t, 0);
    StripEmptyIff(t[..j]);
    if k :| BeforeColon(t, k) {
      assert !IsWhite(':' as int);
      assert forall i :: 0 <= i < k ==> t[i] == t[..k][i] && IsWhite(t[i]);
      assert j == k;
    }
    if ReadLine(t, number).Ignored? && j < |t| {
      assert BeforeColon(t, j);
    }
  }

  /** A colon stands at j, after white space only. */
  ghost predicate BeforeColon(t: Text, j: int) {
    0 <= j < |t| && t[j] == ':' as int && AllWhite(t[..j])
  }

  lemma {:induction false} StripLeftEmpty(t: Text)
    ensures StripLeft(t) == [] <==> AllWhite(t)
  {
    if t != [] {
      if IsWhite(t[0]) {
        StripLeftEmpty(t[1..]);
        assert forall k :: 0 < k < |t| ==> t[k] == t[1..][k - 1];
      }
    }
  }

  lemma {:induction false} StripRightEmpty(t: Text)
    ensures StripRight(t) == [] <==> AllWhite(t)
  {
    if t != [] {
      if IsWhite(t[|t| - 1]) {
        StripRightEmpty(t[..|t| - 1]);
      }
    }
  }

  lemma StripEmptyIff(t: Text)
    ensures Strip(t) == [] <==> AllWhite(t)
  {
    StripLeftEmpty(t);
    StripRightEmpty(StripLeft(t));
    if t != [] && AllWhite(StripLeft(t)) {
      StripLeftFirst(t);
    }
  }

  lemma {:induction false} StripLeftFirst(t: Text)
    ensures StripLeft(t) != [] ==> !IsWhite(StripLeft(t)[0])
  {
    if t != [] && IsWhite(t[0]) {
      StripLeftFirst(t[1..]);
    }
  }

  lemma {:induction false} NoQuoteInWhite(t: Text, i: nat)
    requires i <= |t| && AllWhite(t[..i])
    ensures QuoteBefore(t, i) == None
  {
    if i > 0 {
      assert forall k :: 0 <= k < i - 1 ==> t[..i - 1][k] == t[..i][k];
      assert IsWhite(t[..i][i - 1]) && !IsWhite('"' as int) && !IsWhite('\'' as int);
      NoQuoteInWhite(t, i - 1);
    }
  }

  /** A '#' stands at j, after white space only. */
  ghost predicate BeforeHash(t: Text, j: int) {
    0 <= j < |t| && t[j] == '#' as int && AllWhite(t[..j])
  }

  /** A line gives no entry exactly when nothing but white space stands before its end or before a '#'. */
  lemma BlankIff(line: Text)
    ensures LineEntry(line) == None <==> AllWhite(line) || exists j :: BeforeHash(line, j)
  {
    var c := CommentFrom(line, 0);
    StripEmptyIff(line[..c]);
    if AllWhite(line) {
      assert AllWhite(line[..c]);
    }
    if j :| BeforeHash(line, j) {
      NoQuoteInWhite(line, j);
      assert CommentAt(line, j);
      assert c <= j;
      assert forall k :: 0 <= k < c ==> line[..c][k] == line[..j][k];
    }
    if LineEntry(line) == None && c < |line| {
      assert BeforeHash(line, c);
    }
    if LineEntry(line) == None && c == |line| {
      assert line[..c] == line;
    }
  }

  // ---- quotes ----

  /** Between a quote and the next one of its kind, whatever stands there, that quote is open; after it none is. */
  lemma {:induction false} QuoteOpen(pre: Text, q: int, body: Text, post: Text, k: nat)
    requires q == '"' as int || q == '\'' as int
    requires (forall i :: 0 <= i < |pre| ==> !IsQuote(pre[i])) && q !in body && k <= |body|
    ensures QuoteBefore(pre + ([q] + (body + ([q] + post))), |pre| + 1 + k) == Some(q)
  {
    var t := pre + ([q] + (body + ([q] + post)));
    if k == 0 {
      QuoteAfterPlain(pre, [q] + (body + ([q] + post)), 0);
      assert t[|pre|] == q;
      assert QuoteBefore(t, |pre|) == None;
    } else {
      QuoteOpen(pre, q, body, post, k - 1);
      assert t[|pre| + k] == body[k - 1];
    }
  }

  /** A '#' between two quotes is no comment, and one right after them is. */
  lemma QuotedHash(pre: Text, q: int, body: Text, post: Text, k: nat)
    requires q == '"' as int || q == '\'' as int
    requires (forall i :: 0 <= i < |pre| ==> !IsQuote(pre[i])) && q !in body && k < |body|
    ensures var t := pre + ([q] + (body + ([q] + post)));
            && !CommentAt(t, |pre| + 1 + k)
            && (post != [] && post[0] == '#' as int ==> CommentAt(t, |pre| + |body| + 2))
  {
    var t := pre + ([q] + (body + ([q] + post)));
    QuoteOpen(pre, q, body, post, k);
    QuoteOpen(pre, q, body, post, |body|);
    assert t[|pre| + 1 + |body|] == q;
    assert QuoteBefore(t, |pre| + |body| + 2) == None;
    assert post != [] ==> t[|pre| + |body| + 2] == post[0];
  }

  // ---- line breaks ----

  /** What ends a line for Python's splitlines. */
  predicate IsLineEnd(ending: Text) {
    || ending == [13, 10]
    || (|ending| == 1 && ending[0] in {10, 11, 12, 13, 28, 29, 30, 0x85, 0x2028, 0x2029})
  }

  /** Lines, each with its own ending. */
  function JoinEnded(lines: seq<Text>, endings: seq<Text>): Text
    requires |lines| == |endings|
  {
    if lines == [] then [] else lines[0] + (endings[0] + JoinEnded(lines[1..], endings[1..]))
  }

  /** Lines without breaks of their own; a lone carriage return is not followed by an empty line that a line feed ends. */
  ghost predicate Separable(lines: seq<Text>, endings: seq<Text>)
    requires |lines| == |endings|
    decreases |lines|
  {
    lines == []
    || (&& Unbroken(lines[0]) && IsLineEnd(endings[0]) && Separable(lines[1..], endings[1..])
        && (endings[0] == [13] && |lines| > 1 && lines[1] == [] ==> endings[1] != [10]))
  }

  lemma JoinedStart(lines: seq<Text>, endings: seq<Text>)
    requires |lines| == |endings| && Separable(lines, endings) && lines != []
    ensures var t := JoinEnded(lines, endings);
            t != [] && (lines[0] == [] ==> t[0] == endings[0][0]) && (lines[0] != [] ==> t[0] == lines[0][0] && t[0] != 10)
  {
  }

  /** Splitting into lines undoes joining them, whichever line ends they have. */
  lemma {:induction false} SplitUndoesEndings(lines: seq<Text>, endings: seq<Text>)
    requires |lines| == |endings| && Separable(lines, endings)
    ensures SplitLines(JoinEnded(lines, endings)) == lines
    decreases |lines|
  {
    if lines != [] {
      var rest := JoinEnded(lines[1..], endings[1..]);
      LineFeedApart(lines, endings);
      SplitEnded(lines[0], endings[0], rest);
      SplitUndoesEndings(lines[1..], endings[1..]);
    }
  }

  lemma LineFeedApart(lines: seq<Text>, endings: seq<Text>)
    requires |lines| == |endings| && lines != [] && Separable(lines, endings)
    ensures var rest := JoinEnded(lines[1..], endings[1..]); endings[0] == [13] && rest != [] ==> rest[0] != 10
  {
    if |lines| > 1 {
      JoinedStart(lines[1..], endings[1..]);
    }
  }

  lemma SplitEnded(line: Text, ending: Text, rest: Text)
    requires Unbroken(line) && IsLineEnd(ending) && (ending == [13] && rest != [] ==> rest[0] != 10)
    ensures SplitLines(line + (ending + rest)) == [line] + SplitLines(rest)
  {
    var t, j := line + (ending + rest), |line|;
    assert t[j] == ending[0] && t[..j] == line && t[j + |ending|..] == rest;
    assert forall k :: 0 <= k < j ==> t[k] == line[k];
    assert BreakFrom(t, 0) == j;
    assert |ending| == 2 ==> t[j + 1] == 10;
    assert |ending| == 1 && j + 1 < |t| ==> t[j + 1] == rest[0];
  }

  // ---- whole files, line by line ----

  /** A line of a file: one that says nothing, or an entry with white space and perhaps a comment after it. */
  datatype Row = Empty(text: Text) | Full(entry: Entry, space: Text, comment: Text)

  function RowText(r: Row): Text {
    match r
    case Empty(text) => text
    case Full(entry, space, comment) => Spaces(entry.indent) + (entry.text + space + comment)
  }

  ghost predicate GoodRow(r: Row) {
    && Unbroken(RowText(r))
    && match r
       case Empty(text) => AllWhite(text) || exists j :: BeforeHash(text, j)
       case Full(entry, space, comment) =>
         && Trimmed(entry.text) && AllWhite(space) && (forall i :: 0 <= i < |entry.text| ==> !CommentAt(entry.text, i))
         && (comment != [] ==> comment[0] == '#' as int && QuoteBefore(entry.text, |entry.text|) == None)
  }

  ghost predicate GoodRows(rows: seq<Row>) {
    forall k :: 0 <= k < |rows| ==> GoodRow(rows[k])
  }

  function Texts(rows: seq<Row>): seq<Text> {
    seq(|rows|, k requires 0 <= k < |rows| => RowText(rows[k]))
  }

  /** The entries of these lines, from top to bottom. */
  function RowEntries(rows: seq<Row>): seq<Entry> {
    if rows == [] then [] else (if rows[0].Full? then [rows[0].entry] else []) + RowEntries(rows[1..])
  }

  lemma {:induction false} EntriesConcat(a: seq<Text>, b: seq<Text>, n: nat)
    requires n <= |b|
    ensures Entries(a + b, |a| + n) == Entries(a, |a|) + Entries(b, n)
  {
    if n > 0 {
      EntriesConcat(a, b, n - 1);
      assert (a + b)[|a| + n - 1] == b[n - 1];
    } else {
      EntriesOfPrefix(a, b, |a|);
    }
  }

  lemma {:induction false} EntriesOfPrefix(a: seq<Text>, b: seq<Text>, n: nat)
    requires n <= |a|
    ensures Entries(a + b, n) == Entries(a, n)
  {
    if n > 0 {
      EntriesOfPrefix(a, b, n - 1);
    }
  }

  lemma RowReads(r: Row)
    requires GoodRow(r)
    ensures LineEntry(RowText(r)) == if r.Full? then Some(r.entry) else None
  {
    match r
    case Empty(text) => BlankIff(text);
    case Full(entry, space, comment) => LineReads(entry.indent, entry.text, space, comment);
  }

  function EntryOrNot(line: Text): seq<Entry> {
    match LineEntry(line)
    case None => []
    case Some(e) => [e]
  }

  lemma OneEntry(lines: seq<Text>, line: Text)
    requires lines == [line]
    ensures Entries(lines, 1) == EntryOrNot(line)
  {
    assert Entries(lines, 0) == [] && lines[0] == line;
    assert [] + EntryOrNot(line) == EntryOrNot(line);
  }

  lemma FirstEntries(line: Text, rest: seq<Text>)
    ensures Entries([line] + rest, 1 + |rest|) == EntryOrNot(line) + Entries(rest, |rest|)
  {
    var lines := [line];
    EntriesConcat(lines, rest, |rest|);
    OneEntry(lines, line);
  }

  lemma TextsCons(r: Row, rows: seq<Row>)
    ensures Texts([r] + rows) == [RowText(r)] + Texts(rows)
  {
  }

  lemma {:induction false} RowsRead(rows: seq<Row>)
    requires GoodRows(rows)
    ensures Entries(Texts(rows), |rows|) == RowEntries(rows)
  {
    if rows != [] {
      var first, rest := rows[0], rows[1..];
      assert rows == [first] + rest;
      RowReads(first);
      RowsRead(rest);
      TextsCons(first, rest);
      FirstEntries(RowText(first), Texts(rest));
    }
  }

  /** A file whose entries, from top to bottom and among any blank lines and comments, are those of a block of mappings with
      distinct keys loads as the tree of that block. */
  lemma FileLoads(b: Block, rows: seq<Row>, number: Text -> Option<Value>)
    requires Good(b) && DistinctKeys(b) && GoodRows(rows) && RowEntries(rows) == FlattenFrom(b, 0)
    ensures LoadText(JoinLines(Texts(rows)), number) == Tree(b, |b.nodes|, ScalarReader(number))
  {
    RowsRead(rows);
    DocumentLoads(b, Texts(rows), number);
  }
}
