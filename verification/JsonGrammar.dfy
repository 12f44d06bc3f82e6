/** JSON documents by the grammar of RFC 8259, sections 2 to 7, and what the parser accepts beyond it: every choice of white
    space, escapes and number form is part of the document, and the parser reads each of them as its meaning. */
module JsonGrammar {
  import opened Prelude
  import opened Json

  /** A character of a string: itself, a two-character escape, or one 16-bit unit in hexadecimal. */
  datatype Char = Plain(c: int) | Short(letter: int) | Unicode(digits: Text)

  datatype Exponent = Exponent(letter: int, sign: Text, digits: Text)

  datatype Number = Number(negative: bool, digits: Text, fraction: Option<Text>, exponent: Option<Exponent>)

  /** A document; `open` is the white space inside an empty array or object. */
  datatype Doc =
    | DNull
    | DBool(b: bool)
    | DNumber(number: Number)
    | DString(chars: seq<Char>)
    | DArray(open: Text, items: seq<Item>)
    | DObject(open: Text, members: seq<Member>)

  datatype Item = Item(before: Text, doc: Doc, after: Text)

  /** `quote` opens the key; the parser skips it without looking at it. */
  datatype Member = Member(before: Text, quote: int, key: seq<Char>, colonBefore: Text, colonAfter: Text, doc: Doc, after: Text)

  // ---- well-formedness ----

  predicate AllSpace(s: Text) {
    forall k :: 0 <= k < |s| ==> IsSpace(s[k])
  }

  predicate AllDigits(s: Text) {
    forall k :: 0 <= k < |s| ==> IsDigit(s[k])
  }

  predicate GoodChar(c: Char) {
    match c
    case Plain(c) => c != QUOTE && c != BACKSLASH
    case Short(letter) => Unescaped(letter).Some?
    case Unicode(digits) => HexUnit(digits).Some?
  }

  predicate GoodChars(chars: seq<Char>) {
    forall k :: 0 <= k < |chars| ==> GoodChar(chars[k])
  }

  predicate GoodExponent(e: Exponent) {
    IsExponent(e.letter) && |e.sign| <= 1 && (forall k :: 0 <= k < |e.sign| ==> IsSign(e.sign[k]))
    && e.digits != [] && AllDigits(e.digits)
  }

  predicate GoodNumber(n: Number) {
    && n.digits != [] && AllDigits(n.digits)
    && (n.fraction.Some? ==> AllDigits(n.fraction.value))
    && (n.exponent.Some? ==> GoodExponent(n.exponent.value))
  }

  predicate Good(doc: Doc) {
    match doc
    case DNull => true
    case DBool(_) => true
    case DNumber(number) => GoodNumber(number)
    case DString(chars) => GoodChars(chars)
    case DArray(open, items) => AllSpace(open) && forall k :: 0 <= k < |items| ==> GoodItem(items[k])
    case DObject(open, members) => AllSpace(open) && forall k :: 0 <= k < |members| ==> GoodMember(members[k], k == 0)
  }

  predicate GoodItem(x: Item) {
    AllSpace(x.before) && AllSpace(x.after) && Good(x.doc)
  }

  /** The first key of an object is not opened by what would close it. */
  predicate GoodMember(m: Member, first: bool) {
    && AllSpace(m.before) && AllSpace(m.colonBefore) && AllSpace(m.colonAfter) && AllSpace(m.after)
    && GoodChars(m.key) && Good(m.doc) && !IsSpace(m.quote) && (first ==> m.quote != CLOSE_BRACE)
  }

  // ---- the text of a document ----

  function RenderChar(c: Char): Text {
    match c
    case Plain(c) => [c]
    case Short(letter) => [BACKSLASH, letter]
    case Unicode(digits) => [BACKSLASH, 'u' as int] + digits
  }

  function RenderChars(chars: seq<Char>): Text {
    if chars == [] then [] else RenderChar(chars[0]) + RenderChars(chars[1..])
  }

  /** The characters of a string and its closing quote. */
  function RenderTail(chars: seq<Char>): Text {
    RenderChars(chars) + [QUOTE]
  }

  function RenderFraction(fraction: Option<Text>): Text {
    if fraction.None? then [] else [DOT] + fraction.value
  }

  function RenderExponent(e: Option<Exponent>): Text {
    if e.None? then [] else [e.value.letter] + (e.value.sign + e.value.digits)
  }

  function RenderNumber(n: Number): Text {
    RenderSign(n.negative) + (n.digits + (RenderFraction(n.fraction) + RenderExponent(n.exponent)))
  }

  function Render(doc: Doc): Text
    decreases doc, 1, 0
  {
    match doc
    case DNull => NULL
    case DBool(b) => if b then TRUE else FALSE
    case DNumber(number) => RenderNumber(number)
    case DString(chars) => [QUOTE] + RenderTail(chars)
    case DArray(open, items) =>
      [OPEN_BRACKET] + if items == [] then open + [CLOSE_BRACKET] else items[0].before + RenderItems(doc, 0)
    case DObject(open, members) =>
      [OPEN_BRACE] + if members == [] then open + [CLOSE_BRACE] else members[0].before + RenderMembers(doc, 0)
  }

  /** The items from the k-th one on, starting at its value, and the closing bracket. */
  function RenderItems(doc: Doc, k: nat): Text
    requires doc.DArray? && k < |doc.items|
    decreases doc, 0, |doc.items| - k
  {
    Render(doc.items[k].doc) + (doc.items[k].after
      + if k + 1 == |doc.items| then [CLOSE_BRACKET] else [COMMA] + (doc.items[k + 1].before + RenderItems(doc, k + 1)))
  }

  function RenderMembers(doc: Doc, k: nat): Text
    requires doc.DObject? && k < |doc.members|
    decreases doc, 0, |doc.members| - k, 1
  {
    var m := doc.members[k];
    [m.quote] + (RenderTail(m.key) + (m.colonBefore + ([COLON] + (m.colonAfter + (Render(m.doc) + RenderAfter(doc, k))))))
  }

  /** What follows the value of the k-th member. */
  function RenderAfter(doc: Doc, k: nat): Text
    requires doc.DObject? && k < |doc.members|
    decreases doc, 0, |doc.members| - k, 0
  {
    doc.members[k].after
    + if k + 1 == |doc.members| then [CLOSE_BRACE] else [COMMA] + (doc.members[k + 1].before + RenderMembers(doc, k + 1))
  }

  // ---- the meaning of a document ----

  function CharMeaning(c: Char): int
    requires GoodChar(c)
  {
    match c
    case Plain(c) => c
    case Short(letter) => Unescaped(letter).value
    case Unicode(digits) => HexUnit(digits).value
  }

  function CharsMeaning(chars: seq<Char>): Text
    requires GoodChars(chars)
  {
    seq(|chars|, k requires 0 <= k < |chars| => CharMeaning(chars[k]))
  }

  predicate IsIntegral(n: Number) {
    n.fraction.None? && n.exponent.None?
  }

  function NumberMeaning(n: Number): Value {
    if IsIntegral(n) then Int(if n.negative then -DigitsValue(n.digits) else DigitsValue(n.digits))
    else Float(RenderNumber(n))
  }

  function Meaning(doc: Doc): Value
    requires Good(doc)
    decreases doc, 1, 0
  {
    match doc
    case DNull => Null
    case DBool(b) => Bool(b)
    case DNumber(number) => NumberMeaning(number)
    case DString(chars) => Str(CharsMeaning(chars))
    case DArray(_, items) => Arr(ItemsMeaning(doc, |items|))
    case DObject(_, members) => Obj(MembersMeaning(doc, |members|))
  }

  function ItemsMeaning(doc: Doc, n: nat): seq<Value>
    requires Good(doc) && doc.DArray? && n <= |doc.items|
    decreases doc, 0, n
  {
    if n == 0 then []
    else
      assert GoodItem(doc.items[n - 1]);
      ItemsMeaning(doc, n - 1) + [Meaning(doc.items[n - 1].doc)]
  }

  /** The fields that the first n members build; a repeated key takes the last value. */
  function MembersMeaning(doc: Doc, n: nat): seq<(Text, Value)>
    requires Good(doc) && doc.DObject? && n <= |doc.members|
    decreases doc, 0, n
  {
    if n == 0 then []
    else
      assert GoodMember(doc.members[n - 1], n == 1);
      Put(MembersMeaning(doc, n - 1), CharsMeaning(doc.members[n - 1].key), Meaning(doc.members[n - 1].doc))
  }

  // ---- what Python's int can convert ----

  predicate NumberFits(n: Number) {
    IsIntegral(n) ==> |n.digits| <= MAX_INT_DIGITS
  }

  predicate Fits(doc: Doc)
    decreases doc, 1, 0
  {
    match doc
    case DNumber(number) => NumberFits(number)
    case DArray(_, _) => ItemsFit(doc, 0)
    case DObject(_, _) => MembersFit(doc, 0)
    case _ => true
  }

  predicate ItemsFit(doc: Doc, k: nat)
    requires doc.DArray? && k <= |doc.items|
    decreases doc, 0, |doc.items| - k
  {
    k == |doc.items| || (Fits(doc.items[k].doc) && ItemsFit(doc, k + 1))
  }

  predicate MembersFit(doc: Doc, k: nat)
    requires doc.DObject? && k <= |doc.members|
    decreases doc, 0, |doc.members| - k
  {
    k == |doc.members| || (Fits(doc.members[k].doc) && MembersFit(doc, k + 1))
  }

  // ---- reading pieces of text ----

  /** The text `s` stands in `t` at `i`. */
  predicate Here(t: Text, i: nat, s: Text)
    decreases |s|
  {
    if s == [] then i <= |t| else i < |t| && t[i] == s[0] && Here(t, i + 1, s[1..])
  }

  lemma {:induction false} HereIsSlice(t: Text, i: nat, s: Text)
    ensures Here(t, i, s) <==> i + |s| <= |t| && t[i..i + |s|] == s
    decreases |s|
  {
    if s == [] {
    } else if i < |t| {
      HereIsSlice(t, i + 1, s[1..]);
      if i + |s| <= |t| {
        assert t[i..i + |s|] == [t[i]] + t[i + 1..i + |s|];
        assert s == [s[0]] + s[1..];
      }
    }
  }

  lemma HereSplit(t: Text, i: nat, a: Text, b: Text)
    requires Here(t, i, a + b)
    ensures Here(t, i, a) && Here(t, i + |a|, b)
  {
    HereIsSlice(t, i, a + b);
    HereIsSlice(t, i, a);
    HereIsSlice(t, i + |a|, b);
    var s := t[i..i + |a + b|];
    assert s[..|a|] == a && s[|a|..] == b;
    assert s[..|a|] == t[i..i + |a|] && s[|a|..] == t[i + |a|..i + |a| + |b|];
  }

  lemma HereChar(t: Text, i: nat, s: Text, k: nat)
    requires Here(t, i, s) && k < |s|
    ensures i + k < |t| && t[i + k] == s[k]
  {
    HereIsSlice(t, i, s);
    assert t[i..i + |s|][k] == t[i + k];
  }

  lemma HereSlice(t: Text, i: nat, s: Text)
    requires Here(t, i, s)
    ensures i + |s| <= |t| && t[i..i + |s|] == s
  {
    HereIsSlice(t, i, s);
  }

  lemma HereTail(t: Text, i: nat, s: Text)
    requires Here(t, i, s) && s != []
    ensures i < |t| && t[i] == s[0] && Here(t, i + 1, s[1..])
  {
  }

  lemma {:induction false} SpaceReads(t: Text, i: nat, s: Text)
    requires AllSpace(s) && Here(t, i, s)
    ensures AfterSpace(t, i) == AfterSpace(t, i + |s|)
    decreases |s|
  {
    if s != [] {
      HereTail(t, i, s);
      SpaceReads(t, i + 1, s[1..]);
    }
  }

  lemma {:induction false} DigitsRead(t: Text, i: nat, s: Text)
    requires AllDigits(s) && Here(t, i, s) && (i + |s| < |t| ==> !IsDigit(t[i + |s|]))
    ensures AfterDigits(t, i) == i + |s|
    decreases |s|
  {
    if s != [] {
      HereTail(t, i, s);
      DigitsRead(t, i + 1, s[1..]);
    }
  }

  // ---- strings ----

  lemma CharReads(c: Char, t: Text, i: nat, read: Text)
    requires GoodChar(c) && Here(t, i, RenderChar(c))
    ensures StringFrom(t, i, read) == StringFrom(t, i + |RenderChar(c)|, read + [CharMeaning(c)])
  {
    var s := RenderChar(c);
    HereChar(t, i, s, 0);
    if !c.Plain? {
      HereChar(t, i, s, 1);
    }
    if c.Unicode? {
      HereSplit(t, i, [BACKSLASH, 'u' as int], c.digits);
      HereSlice(t, i + 2, c.digits);
    }
  }

  lemma RenderTailStep(chars: seq<Char>)
    requires chars != []
    ensures RenderTail(chars) == RenderChar(chars[0]) + RenderTail(chars[1..])
  {
  }

  lemma CharsMeaningStep(chars: seq<Char>, read: Text)
    requires GoodChars(chars) && chars != []
    ensures read + [CharMeaning(chars[0])] + CharsMeaning(chars[1..]) == read + CharsMeaning(chars)
  {
    assert CharsMeaning(chars) == [CharMeaning(chars[0])] + CharsMeaning(chars[1..]);
  }

  lemma {:induction false} StringReads(chars: seq<Char>, t: Text, i: nat, read: Text)
    requires GoodChars(chars) && Here(t, i, RenderTail(chars))
    ensures StringFrom(t, i, read) == Some((read + CharsMeaning(chars), i + |RenderTail(chars)|))
    decreases |chars|
  {
    if chars == [] {
      HereChar(t, i, RenderTail(chars), 0);
      assert read + CharsMeaning(chars) == read;
    } else {
      var first, rest := chars[0], chars[1..];
      RenderTailStep(chars);
      HereSplit(t, i, RenderChar(first), RenderTail(rest));
      CharReads(first, t, i, read);
      StringReads(rest, t, i + |RenderChar(first)|, read + [CharMeaning(first)]);
      CharsMeaningStep(chars, read);
    }
  }

  lemma WholeStringReads(chars: seq<Char>, t: Text, i: nat)
    requires GoodChars(chars) && Here(t, i, RenderTail(chars))
    ensures StringFrom(t, i, []) == Some((CharsMeaning(chars), i + |RenderTail(chars)|))
  {
    StringReads(chars, t, i, []);
    assert [] + CharsMeaning(chars) == CharsMeaning(chars);
  }

  // ---- numbers ----

  /** No character at `i` continues a number. */
  predicate NumberEnds(t: Text, i: nat) {
    i < |t| ==> !IsDigit(t[i]) && t[i] != DOT && !IsExponent(t[i])
  }

  lemma ExponentReads(e: Option<Exponent>, t: Text, i: nat)
    requires e.Some? ==> GoodExponent(e.value)
    requires Here(t, i, RenderExponent(e)) && NumberEnds(t, i + |RenderExponent(e)|)
    ensures AfterExponent(t, i) == Some(i + |RenderExponent(e)|)
  {
    if e.Some? {
      var j, end := ExponentPieces(e.value, t, i);
      ExponentDigits(e.value, t, i, j, end);
    }
  }

  /** Where the digits of an exponent start and end. */
  lemma ExponentPieces(x: Exponent, t: Text, i: nat) returns (j: nat, end: nat)
    requires Here(t, i, [x.letter] + (x.sign + x.digits))
    ensures At(t, i, x.letter) && Here(t, i + 1, x.sign) && j == i + 1 + |x.sign| && Here(t, j, x.digits) && end == j + |x.digits|
    ensures end == i + |[x.letter] + (x.sign + x.digits)|
  {
    j := i + 1 + |x.sign|;
    end := j + |x.digits|;
    HereSplit(t, i, [x.letter], x.sign + x.digits);
    HereSplit(t, i + 1, x.sign, x.digits);
    HereChar(t, i, [x.letter], 0);
  }

  lemma ExponentDigits(x: Exponent, t: Text, i: nat, j: nat, end: nat)
    requires GoodExponent(x) && At(t, i, x.letter) && Here(t, i + 1, x.sign) && j == i + 1 + |x.sign|
    requires Here(t, j, x.digits) && end == j + |x.digits| && (end < |t| ==> !IsDigit(t[end]))
    ensures AfterExponent(t, i) == Some(end)
  {
    DigitsEnd(x.digits, t, j, end);
    HereChar(t, j, x.digits, 0);
    if x.sign != [] {
      HereChar(t, i + 1, x.sign, 0);
    }
  }

  lemma FractionReads(fraction: Option<Text>, t: Text, i: nat)
    requires fraction.Some? ==> AllDigits(fraction.value)
    requires Here(t, i, RenderFraction(fraction))
    requires var j := i + |RenderFraction(fraction)|; j < |t| ==> !IsDigit(t[j]) && (fraction.None? ==> t[j] != DOT)
    ensures (if At(t, i, DOT) then AfterDigits(t, i + 1) else i) == i + |RenderFraction(fraction)|
    ensures i < |t| ==> !IsDigit(t[i])
  {
    if fraction.Some? {
      HereSplit(t, i, [DOT], fraction.value);
      HereChar(t, i, [DOT], 0);
      DigitsRead(t, i + 1, fraction.value);
    }
  }

  function RenderSign(negative: bool): Text {
    if negative then [MINUS] else []
  }

  /** The parts of a number where they stand. */
  lemma NumberPieces(n: Number, t: Text, i: nat, end: nat) returns (start: nat, whole: nat, fraction: nat)
    requires Here(t, i, RenderNumber(n)) && end == i + |RenderNumber(n)|
    ensures Here(t, i, RenderSign(n.negative)) && start == i + |RenderSign(n.negative)|
    ensures Here(t, start, n.digits) && whole == start + |n.digits|
    ensures Here(t, whole, RenderFraction(n.fraction)) && fraction == whole + |RenderFraction(n.fraction)|
    ensures Here(t, fraction, RenderExponent(n.exponent)) && end == fraction + |RenderExponent(n.exponent)|
  {
    var last;
    start, whole, fraction, last := FourPieces(t, i, RenderSign(n.negative), n.digits, RenderFraction(n.fraction), RenderExponent(n.exponent));
  }

  lemma FourPieces(t: Text, i: nat, a: Text, b: Text, c: Text, d: Text) returns (j: nat, k: nat, l: nat, m: nat)
    requires Here(t, i, a + (b + (c + d)))
    ensures Here(t, i, a) && j == i + |a| && Here(t, j, b) && k == j + |b| && Here(t, k, c) && l == k + |c|
    ensures Here(t, l, d) && m == l + |d| && m == i + |a + (b + (c + d))|
  {
    j := i + |a|;
    k := j + |b|;
    l := k + |c|;
    m := l + |d|;
    HereSplit(t, i, a, b + (c + d));
    HereSplit(t, j, b, c + d);
    HereSplit(t, k, c, d);
  }

  lemma SignReads(n: Number, t: Text, i: nat, start: nat)
    requires GoodNumber(n) && Here(t, i, RenderSign(n.negative)) && start == i + |RenderSign(n.negative)| && Here(t, start, n.digits)
    ensures start < |t| && IsDigit(t[start]) && start == (if At(t, i, MINUS) then i + 1 else i)
  {
    HereChar(t, start, n.digits, 0);
    if n.negative {
      HereChar(t, i, [MINUS], 0);
    }
  }

  /** No digit stands where the fraction, the exponent or the end of a number stands. */
  lemma NoDigitAfter(n: Number, t: Text, fraction: nat, end: nat)
    requires GoodNumber(n) && Here(t, fraction, RenderExponent(n.exponent)) && end == fraction + |RenderExponent(n.exponent)|
    requires NumberEnds(t, end)
    ensures fraction < |t| ==> !IsDigit(t[fraction]) && t[fraction] != DOT
  {
    if RenderExponent(n.exponent) != [] {
      HereChar(t, fraction, RenderExponent(n.exponent), 0);
    }
  }

  lemma DigitsEnd(digits: Text, t: Text, start: nat, whole: nat)
    requires digits != [] && AllDigits(digits) && Here(t, start, digits) && whole == start + |digits|
    requires whole < |t| ==> !IsDigit(t[whole])
    ensures AfterDigits(t, start) == whole && start < whole <= |t|
  {
    DigitsRead(t, start, digits);
    HereSlice(t, start, digits);
  }

  lemma IntegralRaw(n: Number)
    requires GoodNumber(n) && IsIntegral(n)
    ensures ParseInt(RenderNumber(n)) == if NumberFits(n) then Some(NumberMeaning(n)) else None
  {
    var raw := RenderNumber(n);
    if n.negative {
      assert raw == [MINUS] + n.digits;
      assert raw[1..] == n.digits;
    } else {
      assert raw == n.digits;
      assert IsDigit(n.digits[0]);
    }
  }

  /** What the parser makes of the parts. */
  lemma NumberFromParts(t: Text, i: nat, start: nat, whole: nat, fraction: nat, end: nat)
    requires start == (if At(t, i, MINUS) then i + 1 else i) && start < whole <= |t|
    requires AfterDigits(t, start) == whole
    requires (if At(t, whole, DOT) then AfterDigits(t, whole + 1) else whole) == fraction
    requires AfterExponent(t, fraction) == Some(end)
    ensures end <= |t|
    ensures NumberAt(t, i)
         == if end != whole then Some(Parsed(Float(t[i..end]), end))
            else match ParseInt(t[i..end]) case None => None case Some(v) => Some(Parsed(v, end))
  {
  }

  /** Where the parts of a number end for the parser. */
  lemma NumberPlaces(n: Number, t: Text, i: nat, end: nat) returns (start: nat, whole: nat, fraction: nat)
    requires GoodNumber(n) && Here(t, i, RenderNumber(n)) && end == i + |RenderNumber(n)| && NumberEnds(t, end)
    ensures start == (if At(t, i, MINUS) then i + 1 else i) && start < whole <= |t|
    ensures AfterDigits(t, start) == whole
    ensures (if At(t, whole, DOT) then AfterDigits(t, whole + 1) else whole) == fraction
    ensures AfterExponent(t, fraction) == Some(end)
    ensures IsIntegral(n) <==> end == whole
  {
    start, whole, fraction := NumberPieces(n, t, i, end);
    SignReads(n, t, i, start);
    NoDigitAfter(n, t, fraction, end);
    ExponentReads(n.exponent, t, fraction);
    FractionReads(n.fraction, t, whole);
    DigitsEnd(n.digits, t, start, whole);
    IntegralLength(n);
  }

  lemma NumberReads(n: Number, t: Text, i: nat)
    requires GoodNumber(n) && Here(t, i, RenderNumber(n)) && NumberEnds(t, i + |RenderNumber(n)|)
    ensures NumberAt(t, i)
         == if NumberFits(n) then Some(Parsed(NumberMeaning(n), i + |RenderNumber(n)|)) else None
  {
    var end := i + |RenderNumber(n)|;
    var start, whole, fraction := NumberPlaces(n, t, i, end);
    NumberFromParts(t, i, start, whole, fraction, end);
    NumberText(n, RenderNumber(n), t, i, end);
  }

  lemma IntegralLength(n: Number)
    ensures IsIntegral(n) <==> |RenderFraction(n.fraction)| + |RenderExponent(n.exponent)| == 0
  {
  }

  /** What the text of a number is converted to. */
  lemma TextMeans(n: Number, raw: Text)
    requires GoodNumber(n) && raw == RenderNumber(n)
    ensures !IsIntegral(n) ==> Float(raw) == NumberMeaning(n)
    ensures IsIntegral(n) ==> ParseInt(raw) == if NumberFits(n) then Some(NumberMeaning(n)) else None
  {
    if IsIntegral(n) {
      IntegralRaw(n);
    }
  }

  lemma NumberText(n: Number, r: Text, t: Text, i: nat, end: nat)
    requires GoodNumber(n) && r == RenderNumber(n) && Here(t, i, r) && end == i + |r|
    ensures i <= end <= |t|
    ensures !IsIntegral(n) ==> Float(t[i..end]) == NumberMeaning(n)
    ensures IsIntegral(n) ==> ParseInt(t[i..end]) == if NumberFits(n) then Some(NumberMeaning(n)) else None
  {
    var raw := SliceHere(t, i, r);
    TextMeans(n, raw);
  }

  lemma SliceHere(t: Text, i: nat, s: Text) returns (raw: Text)
    requires Here(t, i, s)
    ensures i + |s| <= |t| && raw == t[i..i + |s|] && raw == s
  {
    HereSlice(t, i, s);
    raw := s;
  }

  // ---- values ----

  /** A character that can start a value. */
  predicate Starts(c: int) {
    c == QUOTE || c == OPEN_BRACE || c == OPEN_BRACKET || c == 't' as int || c == 'f' as int || c == 'n' as int
    || c == MINUS || IsDigit(c)
  }

  lemma NumberStarts(n: Number)
    requires GoodNumber(n)
    ensures RenderNumber(n) != [] && (RenderNumber(n)[0] == MINUS || IsDigit(RenderNumber(n)[0]))
  {
    assert n.negative ==> RenderNumber(n)[0] == MINUS;
    assert !n.negative ==> RenderNumber(n)[0] == n.digits[0];
  }

  lemma RenderStarts(doc: Doc)
    requires Good(doc)
    ensures Render(doc) != [] && Starts(Render(doc)[0])
  {
    if doc.DNumber? {
      NumberStarts(doc.number);
    }
  }

  lemma ItemsStart(doc: Doc, k: nat)
    requires Good(doc) && doc.DArray? && k < |doc.items|
    ensures RenderItems(doc, k) != [] && Starts(RenderItems(doc, k)[0])
  {
    RenderStarts(doc.items[k].doc);
  }

  /** White space before something that is not white space is skipped entirely. */
  lemma SpaceThen(t: Text, i: nat, s: Text)
    requires AllSpace(s) && Here(t, i, s) && i + |s| < |t| && !IsSpace(t[i + |s|])
    ensures AfterSpace(t, i) == i + |s|
  {
    SpaceReads(t, i, s);
  }

  /** A value, white space and a closing character. */
  lemma LastPieces(t: Text, i: nat, value: Text, after: Text, close: int) returns (j: nat, m: nat)
    requires Here(t, i, value + (after + [close]))
    ensures Here(t, i, value) && j == i + |value| && Here(t, j, after) && m == j + |after| && At(t, m, close)
    ensures i + |value + (after + [close])| == m + 1
  {
    j := i + |value|;
    m := j + |after|;
    HereSplit(t, i, value, after + [close]);
    HereSplit(t, j, after, [close]);
    HereChar(t, m, [close], 0);
  }

  /** A value, white space, a comma and the rest. */
  lemma NextPieces(t: Text, i: nat, value: Text, after: Text, rest: Text) returns (j: nat, m: nat)
    requires Here(t, i, value + (after + ([COMMA] + rest)))
    ensures Here(t, i, value) && j == i + |value| && Here(t, j, after) && m == j + |after| && At(t, m, COMMA)
    ensures Here(t, m + 1, rest) && i + |value + (after + ([COMMA] + rest))| == m + 1 + |rest|
  {
    j := i + |value|;
    m := j + |after|;
    HereSplit(t, i, value, after + ([COMMA] + rest));
    HereSplit(t, j, after, [COMMA] + rest);
    HereSplit(t, m, [COMMA], rest);
    HereChar(t, m, [COMMA], 0);
  }

  /** The k-th item, and what separates it from the next one. */
  lemma ItemPieces(doc: Doc, k: nat, t: Text, i: nat) returns (j: nat, m: nat)
    requires Good(doc) && doc.DArray? && k < |doc.items| && Here(t, i, RenderItems(doc, k))
    ensures Here(t, i, Render(doc.items[k].doc)) && j == i + |Render(doc.items[k].doc)|
    ensures Here(t, j, doc.items[k].after) && m == j + |doc.items[k].after|
    ensures k + 1 == |doc.items| ==> At(t, m, CLOSE_BRACKET) && i + |RenderItems(doc, k)| == m + 1
    ensures k + 1 < |doc.items| ==>
              && At(t, m, COMMA) && Here(t, m + 1, doc.items[k + 1].before + RenderItems(doc, k + 1))
              && i + |RenderItems(doc, k)| == m + 1 + |doc.items[k + 1].before + RenderItems(doc, k + 1)|
  {
    var item := doc.items[k];
    if k + 1 == |doc.items| {
      j, m := LastPieces(t, i, Render(item.doc), item.after, CLOSE_BRACKET);
    } else {
      j, m := NextPieces(t, i, Render(item.doc), item.after, doc.items[k + 1].before + RenderItems(doc, k + 1));
    }
  }

  /** After a value comes white space or punctuation. */
  lemma SeparatorEndsNumber(t: Text, j: nat, after: Text, m: nat)
    requires AllSpace(after) && Here(t, j, after) && m == j + |after|
    requires At(t, m, COMMA) || At(t, m, CLOSE_BRACKET) || At(t, m, CLOSE_BRACE)
    ensures NumberEnds(t, j) && AfterSpace(t, j) == m
  {
    SpaceThen(t, j, after);
    if after != [] {
      HereChar(t, j, after, 0);
    }
  }

  /** White space before something that is not white space. */
  lemma SpaceBefore(t: Text, i: nat, space: Text, rest: Text) returns (next: nat)
    requires AllSpace(space) && Here(t, i, space + rest) && rest != [] && !IsSpace(rest[0])
    ensures AfterSpace(t, i) == next && Here(t, next, rest) && i + |space + rest| == next + |rest|
  {
    next := i + |space|;
    HereSplit(t, i, space, rest);
    HereChar(t, next, rest, 0);
    SpaceThen(t, i, space);
  }

  /** The k-th item, the character that ends it and where the next one starts. */
  lemma ItemFacts(doc: Doc, k: nat, t: Text, i: nat) returns (j: nat, m: nat, next: nat)
    requires Good(doc) && doc.DArray? && k < |doc.items| && Here(t, i, RenderItems(doc, k))
    ensures j == i + |Render(doc.items[k].doc)| && Here(t, i, Render(doc.items[k].doc))
    ensures NumberEnds(t, j) && AfterSpace(t, j) == m
    ensures if k + 1 == |doc.items| then At(t, m, CLOSE_BRACKET) && i + |RenderItems(doc, k)| == m + 1
            else At(t, m, COMMA) && AfterSpace(t, m + 1) == next && Here(t, next, RenderItems(doc, k + 1))
                 && i + |RenderItems(doc, k)| == next + |RenderItems(doc, k + 1)|
  {
    j, m := ItemPieces(doc, k, t, i);
    SeparatorEndsNumber(t, j, doc.items[k].after, m);
    next := m;
    if k + 1 < |doc.items| {
      next := NextItem(doc, k + 1, t, m + 1);
    }
  }

  lemma NextItem(doc: Doc, k: nat, t: Text, i: nat) returns (next: nat)
    requires Good(doc) && doc.DArray? && k < |doc.items| && Here(t, i, doc.items[k].before + RenderItems(doc, k))
    ensures AfterSpace(t, i) == next && Here(t, next, RenderItems(doc, k))
    ensures i + |doc.items[k].before + RenderItems(doc, k)| == next + |RenderItems(doc, k)|
  {
    ItemsStart(doc, k);
    next := SpaceBefore(t, i, doc.items[k].before, RenderItems(doc, k));
  }

  lemma ItemsThere(doc: Doc, k: nat, t: Text, i: nat)
    requires Good(doc) && doc.DArray? && k < |doc.items| && Here(t, i, RenderItems(doc, k))
    ensures i < |t|
  {
    ItemsStart(doc, k);
    HereChar(t, i, RenderItems(doc, k), 0);
  }

  function FitMeaning(doc: Doc): Option<Value>
    requires Good(doc)
  {
    if Fits(doc) then Some(Meaning(doc)) else None
  }

  /** What the parser should make of the items from the k-th one on, standing at `i`. */
  function ItemsResult(doc: Doc, k: nat, i: nat): Option<Parsed>
    requires Good(doc) && doc.DArray? && k < |doc.items|
  {
    if ItemsFit(doc, k) then Some(Parsed(Arr(ItemsMeaning(doc, |doc.items|)), i + |RenderItems(doc, k)|)) else None
  }

  lemma ItemsResultStep(doc: Doc, k: nat, i: nat, next: nat)
    requires Good(doc) && doc.DArray? && k + 1 < |doc.items|
    requires i + |RenderItems(doc, k)| == next + |RenderItems(doc, k + 1)|
    ensures ItemsResult(doc, k, i) == if Fits(doc.items[k].doc) then ItemsResult(doc, k + 1, next) else None
  {
  }

  lemma ItemsResultLast(doc: Doc, k: nat, i: nat)
    requires Good(doc) && doc.DArray? && k + 1 == |doc.items|
    ensures ItemsResult(doc, k, i)
         == if Fits(doc.items[k].doc) then Some(Parsed(Arr(ItemsMeaning(doc, k + 1)), i + |RenderItems(doc, k)|)) else None
  {
    assert ItemsFit(doc, k + 1);
  }

  lemma ItemsMeaningStep(doc: Doc, k: nat)
    requires Good(doc) && doc.DArray? && k < |doc.items|
    ensures GoodItem(doc.items[k])
    ensures ItemsMeaning(doc, k + 1) == ItemsMeaning(doc, k) + [Meaning(doc.items[k].doc)]
  {
  }

  lemma {:induction false} ItemsRead(doc: Doc, k: nat, t: Text, i: nat)
    requires Good(doc) && doc.DArray? && k < |doc.items| && Here(t, i, RenderItems(doc, k))
    ensures ItemsFrom(t, i, ItemsMeaning(doc, k)) == ItemsResult(doc, k, i)
    decreases doc, 0, |doc.items| - k
  {
    var item, read := doc.items[k].doc, ItemsMeaning(doc, k);
    var j, m, next := ItemFacts(doc, k, t, i);
    ItemsThere(doc, k, t, i);
    ReadsAt(item, t, i, j);
    ItemsRound(t, i, read, FitMeaning(item), j, m);
    ItemsMeaningStep(doc, k);
    if k + 1 == |doc.items| {
      ItemsResultLast(doc, k, i);
    } else {
      ItemsResultStep(doc, k, i, next);
      if Fits(item) {
        ItemsRead(doc, k + 1, t, next);
      }
    }
  }

  // What the parser does, by the first character of a value.

  lemma StringValue(t: Text, i: nat, text: Text, j: nat)
    requires At(t, i, QUOTE) && StringFrom(t, i + 1, []) == Some((text, j))
    ensures ValueAt(t, i) == Some(Parsed(Str(text), j))
  {
  }

  lemma NumberValue(t: Text, i: nat)
    requires i < |t| && (t[i] == MINUS || IsDigit(t[i]))
    ensures ValueAt(t, i) == NumberAt(t, i)
  {
    StartsWithFirst(t, i, TRUE);
    StartsWithFirst(t, i, FALSE);
    StartsWithFirst(t, i, NULL);
  }

  lemma StartsWithFirst(t: Text, i: nat, literal: Text)
    requires i < |t| && literal != []
    ensures t[i] != literal[0] ==> !StartsWith(t, i, literal)
  {
    if i + |literal| <= |t| {
      assert t[i..i + |literal|][0] == t[i];
    }
  }

  lemma LiteralReads(doc: Doc, t: Text, i: nat)
    requires (doc.DNull? || doc.DBool?) && Here(t, i, Render(doc))
    ensures ValueAt(t, i) == Some(Parsed(Meaning(doc), i + |Render(doc)|))
  {
    HereChar(t, i, Render(doc), 0);
    HereSlice(t, i, Render(doc));
    assert StartsWith(t, i, Render(doc));
    StartsWithFirst(t, i, TRUE);
    StartsWithFirst(t, i, FALSE);
  }

  lemma StringDocReads(chars: seq<Char>, t: Text, i: nat)
    requires GoodChars(chars) && Here(t, i, [QUOTE] + RenderTail(chars))
    ensures ValueAt(t, i) == Some(Parsed(Str(CharsMeaning(chars)), i + 1 + |RenderTail(chars)|))
  {
    HereSplit(t, i, [QUOTE], RenderTail(chars));
    HereChar(t, i, [QUOTE], 0);
    WholeStringReads(chars, t, i + 1);
    StringValue(t, i, CharsMeaning(chars), i + 1 + |RenderTail(chars)|);
  }

  lemma NumberDocReads(n: Number, t: Text, i: nat)
    requires GoodNumber(n) && Here(t, i, RenderNumber(n)) && NumberEnds(t, i + |RenderNumber(n)|)
    ensures ValueAt(t, i) == if NumberFits(n) then Some(Parsed(NumberMeaning(n), i + |RenderNumber(n)|)) else None
  {
    NumberStarts(n);
    HereChar(t, i, RenderNumber(n), 0);
    NumberReads(n, t, i);
    NumberValue(t, i);
  }

  lemma NumberCase(doc: Doc, t: Text, i: nat)
    requires doc.DNumber? && Good(doc) && Here(t, i, Render(doc)) && NumberEnds(t, i + |Render(doc)|)
    ensures ValueAt(t, i) == if Fits(doc) then Some(Parsed(Meaning(doc), i + |Render(doc)|)) else None
  {
    NumberDocReads(doc.number, t, i);
  }

  lemma StringCase(doc: Doc, t: Text, i: nat)
    requires doc.DString? && Good(doc) && Here(t, i, Render(doc))
    ensures ValueAt(t, i) == if Fits(doc) then Some(Parsed(Meaning(doc), i + |Render(doc)|)) else None
  {
    StringDocReads(doc.chars, t, i);
  }

  /** Every document of the grammar, wherever it stands, is read as its meaning up to its last character; it is refused
      exactly when it holds an integer that Python will not convert. */
  lemma {:induction false} ValueReads(doc: Doc, t: Text, i: nat)
    requires Good(doc) && Here(t, i, Render(doc)) && NumberEnds(t, i + |Render(doc)|)
    ensures ValueAt(t, i) == if Fits(doc) then Some(Parsed(Meaning(doc), i + |Render(doc)|)) else None
    decreases doc, 1, 0
  {
    match doc
    case DNull => LiteralReads(doc, t, i);
    case DBool(_) => LiteralReads(doc, t, i);
    case DNumber(_) => NumberCase(doc, t, i);
    case DString(_) => StringCase(doc, t, i);
    case DArray(_, _) => ArrayReads(doc, t, i);
    case DObject(_, _) => ObjectReads(doc, t, i);
  }

  lemma ReadsAt(doc: Doc, t: Text, i: nat, j: nat)
    requires Good(doc) && Here(t, i, Render(doc)) && j == i + |Render(doc)| && NumberEnds(t, j)
    ensures ValueAt(t, i) == match FitMeaning(doc) case None => None case Some(v) => Some(Parsed(v, j))
    decreases doc, 2, 0
  {
    ValueReads(doc, t, i);
  }

  /** An opening bracket, white space and the rest. */
  lemma OpenPieces(t: Text, i: nat, bracket: int, open: Text, rest: Text)
    requires AllSpace(open) && Here(t, i, [bracket] + (open + rest)) && rest != [] && !IsSpace(rest[0])
    ensures At(t, i, bracket) && AfterSpace(t, i + 1) == i + 1 + |open|
    ensures Here(t, i + 1 + |open|, rest) && At(t, i + 1 + |open|, rest[0])
  {
    HereSplit(t, i, [bracket], open + rest);
    HereSplit(t, i + 1, open, rest);
    HereChar(t, i, [bracket], 0);
    HereChar(t, i + 1 + |open|, rest, 0);
    SpaceThen(t, i + 1, open);
  }

  /** Where the first item of an array, or its closing bracket, stands. */
  lemma ArrayFacts(doc: Doc, t: Text, i: nat) returns (j: nat)
    requires Good(doc) && doc.DArray? && Here(t, i, Render(doc))
    ensures At(t, i, OPEN_BRACKET) && AfterSpace(t, i + 1) == j
    ensures if doc.items == [] then At(t, j, CLOSE_BRACKET) && i + |Render(doc)| == j + 1
            else Here(t, j, RenderItems(doc, 0)) && i + |Render(doc)| == j + |RenderItems(doc, 0)| && !At(t, j, CLOSE_BRACKET)
  {
    if doc.items == [] {
      j := i + 1 + |doc.open|;
      OpenPieces(t, i, OPEN_BRACKET, doc.open, [CLOSE_BRACKET]);
    } else {
      j := i + 1 + |doc.items[0].before|;
      ItemsStart(doc, 0);
      OpenPieces(t, i, OPEN_BRACKET, doc.items[0].before, RenderItems(doc, 0));
    }
  }

  lemma ArrayReads(doc: Doc, t: Text, i: nat)
    requires Good(doc) && doc.DArray? && Here(t, i, Render(doc))
    ensures ValueAt(t, i) == if Fits(doc) then Some(Parsed(Meaning(doc), i + |Render(doc)|)) else None
    decreases doc, 0, |doc.items| + 1
  {
    var j := ArrayFacts(doc, t, i);
    ArrayValue(t, i, j);
    if doc.items == [] {
      EmptyArray(doc);
    } else {
      ItemsRead(doc, 0, t, j);
      ArrayResult(doc, i, j);
    }
  }

  lemma EmptyArray(doc: Doc)
    requires Good(doc) && doc.DArray? && doc.items == []
    ensures Fits(doc) && Meaning(doc) == Arr([])
  {
  }

  lemma ArrayResult(doc: Doc, i: nat, j: nat)
    requires Good(doc) && doc.DArray? && doc.items != [] && i + |Render(doc)| == j + |RenderItems(doc, 0)|
    ensures ItemsMeaning(doc, 0) == []
    ensures ItemsResult(doc, 0, j) == if Fits(doc) then Some(Parsed(Meaning(doc), i + |Render(doc)|)) else None
  {
  }

  // ---- objects ----

  /** The k-th member up to its value. */
  lemma MemberPieces(doc: Doc, k: nat, t: Text, i: nat) returns (c: nat, colon: nat, v: nat, j: nat)
    requires Good(doc) && doc.DObject? && k < |doc.members| && Here(t, i, RenderMembers(doc, k))
    ensures i < |t| && Here(t, i + 1, RenderTail(doc.members[k].key)) && c == i + 1 + |RenderTail(doc.members[k].key)|
    ensures Here(t, c, doc.members[k].colonBefore) && colon == c + |doc.members[k].colonBefore| && At(t, colon, COLON)
    ensures Here(t, colon + 1, doc.members[k].colonAfter) && v == colon + 1 + |doc.members[k].colonAfter|
    ensures Here(t, v, Render(doc.members[k].doc)) && j == v + |Render(doc.members[k].doc)|
    ensures Here(t, j, RenderAfter(doc, k)) && i + |RenderMembers(doc, k)| == j + |RenderAfter(doc, k)|
  {
    var m := doc.members[k];
    c, colon, v := ColonPieces(t, i, m.quote, RenderTail(m.key), m.colonBefore, m.colonAfter, Render(m.doc) + RenderAfter(doc, k));
    j := v + |Render(m.doc)|;
    HereSplit(t, v, Render(m.doc), RenderAfter(doc, k));
  }

  /** The opening of a key, its rest, white space, a colon, white space and the rest. */
  lemma ColonPieces(t: Text, i: nat, quote: int, tail: Text, before: Text, after: Text, rest: Text) returns (c: nat, colon: nat, v: nat)
    requires Here(t, i, [quote] + (tail + (before + ([COLON] + (after + rest)))))
    ensures i < |t| && Here(t, i + 1, tail) && c == i + 1 + |tail|
    ensures Here(t, c, before) && colon == c + |before| && At(t, colon, COLON)
    ensures Here(t, colon + 1, after) && v == colon + 1 + |after| && Here(t, v, rest)
    ensures i + |[quote] + (tail + (before + ([COLON] + (after + rest))))| == v + |rest|
  {
    c := i + 1 + |tail|;
    colon := c + |before|;
    v := colon + 1 + |after|;
    HereSplit(t, i, [quote], tail + (before + ([COLON] + (after + rest))));
    HereSplit(t, i + 1, tail, before + ([COLON] + (after + rest)));
    HereSplit(t, c, before, [COLON] + (after + rest));
    HereSplit(t, colon, [COLON], after + rest);
    HereSplit(t, colon + 1, after, rest);
    HereChar(t, i, [quote], 0);
    HereChar(t, colon, [COLON], 0);
  }

  lemma MembersStart(doc: Doc, k: nat)
    requires Good(doc) && doc.DObject? && k < |doc.members|
    ensures RenderMembers(doc, k) != [] && !IsSpace(RenderMembers(doc, k)[0])
    ensures RenderMembers(doc, k)[0] == doc.members[k].quote
  {
  }

  /** What follows the value of the k-th member, where it stands. */
  lemma AfterPieces(doc: Doc, k: nat, t: Text, j: nat) returns (m: nat)
    requires Good(doc) && doc.DObject? && k < |doc.members| && Here(t, j, RenderAfter(doc, k))
    ensures Here(t, j, doc.members[k].after) && m == j + |doc.members[k].after|
    ensures k + 1 == |doc.members| ==> At(t, m, CLOSE_BRACE) && j + |RenderAfter(doc, k)| == m + 1
    ensures k + 1 < |doc.members| ==>
              && At(t, m, COMMA) && Here(t, m + 1, doc.members[k + 1].before + RenderMembers(doc, k + 1))
              && j + |RenderAfter(doc, k)| == m + 1 + |doc.members[k + 1].before + RenderMembers(doc, k + 1)|
  {
    var after, j' := doc.members[k].after, j;
    if k + 1 == |doc.members| {
      assert [] + (after + [CLOSE_BRACE]) == RenderAfter(doc, k);
      j', m := LastPieces(t, j, [], after, CLOSE_BRACE);
    } else {
      var rest := doc.members[k + 1].before + RenderMembers(doc, k + 1);
      assert [] + (after + ([COMMA] + rest)) == RenderAfter(doc, k);
      j', m := NextPieces(t, j, [], after, rest);
    }
  }

  /** The key of a member that stands at `i`, and the white space after it. */
  lemma KeyReads(key: seq<Char>, space: Text, t: Text, i: nat, c: nat, colon: nat)
    requires GoodChars(key) && AllSpace(space) && Here(t, i, RenderTail(key)) && c == i + |RenderTail(key)|
    requires Here(t, c, space) && colon == c + |space| && At(t, colon, COLON)
    ensures StringFrom(t, i, []) == Some((CharsMeaning(key), c)) && AfterSpace(t, c) == colon
  {
    WholeStringReads(key, t, i);
    SpaceThen(t, c, space);
  }

  /** White space before a value. */
  lemma SpaceThenValue(doc: Doc, space: Text, t: Text, i: nat, v: nat)
    requires Good(doc) && AllSpace(space) && Here(t, i, space) && v == i + |space| && Here(t, v, Render(doc))
    ensures AfterSpace(t, i) == v
  {
    RenderStarts(doc);
    HereChar(t, v, Render(doc), 0);
    SpaceThen(t, i, space);
  }

  /** A member up to its value, where it stands. */
  lemma MemberFacts(doc: Doc, k: nat, t: Text, i: nat) returns (c: nat, colon: nat, v: nat, j: nat)
    requires Good(doc) && doc.DObject? && k < |doc.members| && Here(t, i, RenderMembers(doc, k))
    ensures GoodMember(doc.members[k], k == 0)
    ensures i < |t| && StringFrom(t, i + 1, []) == Some((CharsMeaning(doc.members[k].key), c))
    ensures AfterSpace(t, c) == colon && At(t, colon, COLON) && AfterSpace(t, colon + 1) == v
    ensures Here(t, v, Render(doc.members[k].doc)) && j == v + |Render(doc.members[k].doc)|
    ensures Here(t, j, RenderAfter(doc, k)) && i + |RenderMembers(doc, k)| == j + |RenderAfter(doc, k)|
  {
    var m := doc.members[k];
    c, colon, v, j := MemberPieces(doc, k, t, i);
    KeyReads(m.key, m.colonBefore, t, i + 1, c, colon);
    SpaceThenValue(m.doc, m.colonAfter, t, colon + 1, v);
  }

  /** The character that ends a member and where the next one starts. */
  lemma AfterFacts(doc: Doc, k: nat, t: Text, j: nat) returns (m: nat, next: nat)
    requires Good(doc) && doc.DObject? && k < |doc.members| && Here(t, j, RenderAfter(doc, k))
    ensures NumberEnds(t, j) && AfterSpace(t, j) == m
    ensures if k + 1 == |doc.members| then At(t, m, CLOSE_BRACE) && j + |RenderAfter(doc, k)| == m + 1
            else At(t, m, COMMA) && AfterSpace(t, m + 1) == next && Here(t, next, RenderMembers(doc, k + 1))
                 && j + |RenderAfter(doc, k)| == next + |RenderMembers(doc, k + 1)|
  {
    m := AfterPieces(doc, k, t, j);
    SeparatorEndsNumber(t, j, doc.members[k].after, m);
    next := m;
    if k + 1 < |doc.members| {
      MembersStart(doc, k + 1);
      next := SpaceBefore(t, m + 1, doc.members[k + 1].before, RenderMembers(doc, k + 1));
    }
  }

  /** A member whose parts stand where they should. */
  lemma MemberFromParts(t: Text, i: nat, key: Text, c: nat, colon: nat, v: nat)
    requires StringFrom(t, i + 1, []) == Some((key, c))
    requires AfterSpace(t, c) == colon && At(t, colon, COLON) && AfterSpace(t, colon + 1) == v
    ensures MemberAt(t, i) == match ValueAt(t, v) case None => None case Some(parsed) => Some((key, parsed))
  {
  }

  lemma {:induction false} MemberReads(doc: Doc, k: nat, t: Text, i: nat) returns (j: nat)
    requires Good(doc) && doc.DObject? && k < |doc.members| && Here(t, i, RenderMembers(doc, k))
    ensures GoodMember(doc.members[k], k == 0)
    ensures i < |t| && Here(t, j, RenderAfter(doc, k)) && i + |RenderMembers(doc, k)| == j + |RenderAfter(doc, k)|
    ensures MemberAt(t, i) == match FitMeaning(doc.members[k].doc)
                              case None => None
                              case Some(v) => Some((CharsMeaning(doc.members[k].key), Parsed(v, j)))
    decreases doc, 0, |doc.members| - k, 0
  {
    var c, colon, v;
    c, colon, v, j := MemberFacts(doc, k, t, i);
    var m, next := AfterFacts(doc, k, t, j);
    ReadsAt(doc.members[k].doc, t, v, j);
    MemberFromParts(t, i, CharsMeaning(doc.members[k].key), c, colon, v);
  }

  /** What the parser should make of the members from the k-th one on, standing at `i`. */
  function MembersResult(doc: Doc, k: nat, i: nat): Option<Parsed>
    requires Good(doc) && doc.DObject? && k < |doc.members|
  {
    if MembersFit(doc, k) then Some(Parsed(Obj(MembersMeaning(doc, |doc.members|)), i + |RenderMembers(doc, k)|)) else None
  }

  lemma MembersResultStep(doc: Doc, k: nat, i: nat, next: nat)
    requires Good(doc) && doc.DObject? && k + 1 < |doc.members|
    requires i + |RenderMembers(doc, k)| == next + |RenderMembers(doc, k + 1)|
    ensures MembersResult(doc, k, i) == if Fits(doc.members[k].doc) then MembersResult(doc, k + 1, next) else None
  {
  }

  lemma MembersResultLast(doc: Doc, k: nat, i: nat)
    requires Good(doc) && doc.DObject? && k + 1 == |doc.members|
    ensures MembersResult(doc, k, i)
         == if Fits(doc.members[k].doc) then Some(Parsed(Obj(MembersMeaning(doc, k + 1)), i + |RenderMembers(doc, k)|)) else None
  {
    assert MembersFit(doc, k + 1);
  }

  lemma MembersMeaningStep(doc: Doc, k: nat)
    requires Good(doc) && doc.DObject? && k < |doc.members|
    ensures GoodMember(doc.members[k], k == 0)
    ensures MembersMeaning(doc, k + 1)
         == Put(MembersMeaning(doc, k), CharsMeaning(doc.members[k].key), Meaning(doc.members[k].doc))
  {
  }

  /** The k-th member is read, and the parser goes on to the next one or stops after the closing brace. */
  lemma MemberRound(doc: Doc, k: nat, t: Text, i: nat) returns (m: nat, next: nat, read: seq<(Text, Value)>, more: seq<(Text, Value)>)
    requires Good(doc) && doc.DObject? && k < |doc.members| && Here(t, i, RenderMembers(doc, k))
    ensures GoodMember(doc.members[k], k == 0) && read == MembersMeaning(doc, k) && more == MembersMeaning(doc, k + 1)
    ensures !Fits(doc.members[k].doc) ==> MembersFrom(t, i, read).None?
    ensures Fits(doc.members[k].doc) && k + 1 == |doc.members| ==> MembersFrom(t, i, read) == Some(Parsed(Obj(more), m + 1))
    ensures Fits(doc.members[k].doc) && k + 1 < |doc.members| ==> MembersFrom(t, i, read) == MembersFrom(t, next, more)
    ensures if k + 1 == |doc.members| then i + |RenderMembers(doc, k)| == m + 1
            else Here(t, next, RenderMembers(doc, k + 1)) && i + |RenderMembers(doc, k)| == next + |RenderMembers(doc, k + 1)|
    decreases doc, 0, |doc.members| - k, 1
  {
    var j := MemberReads(doc, k, t, i);
    m, next := AfterFacts(doc, k, t, j);
    read, more := MembersMeaning(doc, k), MembersMeaning(doc, k + 1);
    MembersMeaningStep(doc, k);
    MembersRound(t, i, read, CharsMeaning(doc.members[k].key), FitMeaning(doc.members[k].doc), j, m);
  }

  /** The result from the k-th member on is the one from the next member on, or settled with this one. */
  lemma MembersGo(doc: Doc, k: nat, t: Text, i: nat)
    returns (next: nat, read: seq<(Text, Value)>, more: seq<(Text, Value)>, result: Option<Parsed>)
    requires Good(doc) && doc.DObject? && k < |doc.members| && Here(t, i, RenderMembers(doc, k))
    ensures read == MembersMeaning(doc, k) && more == MembersMeaning(doc, k + 1) && result == MembersResult(doc, k, i)
    ensures if k + 1 < |doc.members| && Fits(doc.members[k].doc)
            then MembersFrom(t, i, read) == MembersFrom(t, next, more) && Here(t, next, RenderMembers(doc, k + 1))
                 && MembersResult(doc, k + 1, next) == result
            else MembersFrom(t, i, read) == result
    decreases doc, 0, |doc.members| - k, 2
  {
    var m;
    m, next, read, more := MemberRound(doc, k, t, i);
    result := MembersResult(doc, k, i);
    if k + 1 == |doc.members| {
      MembersResultLast(doc, k, i);
    } else {
      MembersResultStep(doc, k, i, next);
    }
  }

  lemma {:induction false} MembersRead(doc: Doc, k: nat, t: Text, i: nat)
    requires Good(doc) && doc.DObject? && k < |doc.members| && Here(t, i, RenderMembers(doc, k))
    ensures MembersFrom(t, i, MembersMeaning(doc, k)) == MembersResult(doc, k, i)
    decreases doc, 0, |doc.members| - k, 3
  {
    var next, read, more, result := MembersGo(doc, k, t, i);
    if k + 1 < |doc.members| && Fits(doc.members[k].doc) {
      MembersRead(doc, k + 1, t, next);
    }
  }

  /** Where the first member of an object, or its closing brace, stands. */
  lemma ObjectFacts(doc: Doc, t: Text, i: nat) returns (j: nat)
    requires Good(doc) && doc.DObject? && Here(t, i, Render(doc))
    ensures At(t, i, OPEN_BRACE) && AfterSpace(t, i + 1) == j
    ensures if doc.members == [] then At(t, j, CLOSE_BRACE) && i + |Render(doc)| == j + 1
            else Here(t, j, RenderMembers(doc, 0)) && i + |Render(doc)| == j + |RenderMembers(doc, 0)| && !At(t, j, CLOSE_BRACE)
  {
    if doc.members == [] {
      j := i + 1 + |doc.open|;
      OpenPieces(t, i, OPEN_BRACE, doc.open, [CLOSE_BRACE]);
    } else {
      j := i + 1 + |doc.members[0].before|;
      MembersStart(doc, 0);
      OpenPieces(t, i, OPEN_BRACE, doc.members[0].before, RenderMembers(doc, 0));
    }
  }

  lemma ObjectReads(doc: Doc, t: Text, i: nat)
    requires Good(doc) && doc.DObject? && Here(t, i, Render(doc))
    ensures ValueAt(t, i) == if Fits(doc) then Some(Parsed(Meaning(doc), i + |Render(doc)|)) else None
    decreases doc, 0, |doc.members| + 1
  {
    var j := ObjectFacts(doc, t, i);
    ObjectValue(t, i, j);
    if doc.members != [] {
      MembersRead(doc, 0, t, j);
    }
  }

  /** A text with white space around it, and where it stands. */
  lemma Surrounded(before: Text, r: Text, after: Text) returns (t: Text, i: nat, j: nat)
    requires AllSpace(before) && AllSpace(after) && r != [] && !IsSpace(r[0])
    ensures t == before + r + after && Here(t, i, r) && j == i + |r|
    ensures AfterSpace(t, 0) == i && AfterSpace(t, j) == |t| && NumberEnds(t, j)
  {
    t, i, j := before + r + after, |before|, |before| + |r|;
    assert t == before + (r + after);
    HereIsSlice(t, 0, before + (r + after));
    i := SpaceBefore(t, 0, before, r + after);
    HereSplit(t, i, r, after);
    TrailingSpace(t, j, after);
  }

  /** White space up to the end of the text. */
  lemma TrailingSpace(t: Text, j: nat, after: Text)
    requires AllSpace(after) && Here(t, j, after) && j + |after| == |t|
    ensures AfterSpace(t, j) == |t| && NumberEnds(t, j)
  {
    SpaceReads(t, j, after);
    if after != [] {
      HereChar(t, j, after, 0);
    }
  }

  /** A whole text: the document with white space around it. */
  lemma DocumentReads(doc: Doc, before: Text, after: Text)
    requires Good(doc) && AllSpace(before) && AllSpace(after)
    ensures ParseText(before + Render(doc) + after) == if Fits(doc) then Meaning(doc) else Null
  {
    RenderStarts(doc);
    var t, i, j := Surrounded(before, Render(doc), after);
    ReadsAt(doc, t, i, j);
    TextResult(t, i, j, FitMeaning(doc));
  }

  lemma TextResult(t: Text, i: nat, j: nat, v: Option<Value>)
    requires AfterSpace(t, 0) == i && AfterSpace(t, j) == |t|
    requires ValueAt(t, i) == match v case None => None case Some(x) => Some(Parsed(x, j))
    ensures ParseText(t) == if v.Some? then v.value else Null
  {
  }
}
