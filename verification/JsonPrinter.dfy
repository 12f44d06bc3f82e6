/** A printer for JSON values, as a document of the grammar, and the round trip through the parser. */
module JsonPrinter {
  import opened Prelude
  import opened Json
  import opened JsonGrammar

  // ---- numbers ----

  function DigitsOf(n: nat): Text {
    if n < 10 then ['0' as int + n] else DigitsOf(n / 10) + ['0' as int + n % 10]
  }

  function PowerOfTen(k: nat): nat {
    if k == 0 then 1 else 10 * PowerOfTen(k - 1)
  }

  lemma {:induction false} DigitsRoundTrip(n: nat)
    ensures DigitsOf(n) != [] && AllDigits(DigitsOf(n)) && DigitsValue(DigitsOf(n)) == n
  {
    if n < 10 {
      assert DigitsValue([]) == 0;
      assert DigitsOf(n)[..0] == [];
    } else {
      DigitsRoundTrip(n / 10);
      assert DigitsOf(n)[..|DigitsOf(n)| - 1] == DigitsOf(n / 10);
    }
  }

  lemma {:induction false} DigitCount(n: nat, k: nat)
    requires k > 0
    ensures |DigitsOf(n)| <= k <==> n < PowerOfTen(k)
  {
    if k == 1 {
      assert PowerOfTen(1) == 10 * PowerOfTen(0);
      if n >= 10 {
        DigitsRoundTrip(n / 10);
      }
    } else if n < 10 {
      PowerGrows(k);
    } else {
      DigitCount(n / 10, k - 1);
    }
  }

  lemma {:induction false} PowerGrows(k: nat)
    requires k > 0
    ensures PowerOfTen(k) >= 10
  {
    if k > 1 {
      PowerGrows(k - 1);
    }
  }

  // ---- strings ----

  function HexDigit(d: int): int
    requires 0 <= d < 16
  {
    if d < 10 then '0' as int + d else 'a' as int + d - 10
  }

  function HexDigits(unit: int): Text
    requires 0 <= unit < 0x10000
  {
    [HexDigit(unit / 0x1000), HexDigit(unit / 0x100 % 0x10), HexDigit(unit / 0x10 % 0x10), HexDigit(unit % 0x10)]
  }

  lemma HexDigitsSum(unit: int)
    requires 0 <= unit < 0x10000
    ensures ((unit / 0x1000 * 16 + unit / 0x100 % 0x10) * 16 + unit / 0x10 % 0x10) * 16 + unit % 0x10 == unit
  {
    assert unit / 0x1000 == unit / 0x100 / 0x10;
    assert unit / 0x100 == unit / 0x10 / 0x10;
  }

  lemma HexUnitOf(a: int, b: int, c: int, d: int)
    requires 0 <= a < 16 && 0 <= b < 16 && 0 <= c < 16 && 0 <= d < 16
    ensures HexUnit([HexDigit(a), HexDigit(b), HexDigit(c), HexDigit(d)]) == Some(((a * 16 + b) * 16 + c) * 16 + d)
  {
    HexDigitValue(a);
    HexDigitValue(b);
    HexDigitValue(c);
    HexDigitValue(d);
  }

  lemma HexRoundTrip(unit: int)
    requires 0 <= unit < 0x10000
    ensures HexUnit(HexDigits(unit)) == Some(unit)
  {
    HexDigitsSum(unit);
    HexUnitOf(unit / 0x1000, unit / 0x100 % 0x10, unit / 0x10 % 0x10, unit % 0x10);
  }

  lemma HexDigitValue(d: int)
    requires 0 <= d < 16
    ensures HexValue(HexDigit(d)) == Some(d)
  {
  }

  function PrintChar(c: int): Char {
    if c == QUOTE || c == BACKSLASH then Short(c)
    else if 0 <= c < 0x20 then Unicode(HexDigits(c))
    else Plain(c)
  }

  function PrintChars(text: Text): seq<Char> {
    seq(|text|, k requires 0 <= k < |text| => PrintChar(text[k]))
  }

  lemma CharsRoundTrip(text: Text)
    ensures GoodChars(PrintChars(text)) && CharsMeaning(PrintChars(text)) == text
  {
    forall k | 0 <= k < |text|
      ensures GoodChar(PrintChars(text)[k]) && CharMeaning(PrintChars(text)[k]) == text[k]
    {
      if 0 <= text[k] < 0x20 {
        HexRoundTrip(text[k]);
      }
    }
  }

  /** The escape of one code point by section 7 of RFC 8259: above 0xFFFF it is a pair of surrogates. */
  function Escaped(c: int): seq<Char>
    requires 0 <= c < 0x110000
  {
    if c < 0x10000 then [Unicode(HexDigits(c))]
    else [Unicode(HexDigits(0xD800 + (c - 0x10000) / 0x400)), Unicode(HexDigits(0xDC00 + (c - 0x10000) % 0x400))]
  }

  /** The parser reads an escape back as the code point exactly when it is one 16-bit unit: a pair stays two characters. */
  lemma EscapedIsOneUnit(c: int, t: Text, i: nat)
    requires 0 <= c < 0x110000 && Here(t, i, RenderTail(Escaped(c)))
    ensures StringFrom(t, i, []) == Some(([c], i + |RenderTail(Escaped(c))|)) <==> c < 0x10000
  {
    var chars := Escaped(c);
    if c < 0x10000 {
      HexRoundTrip(c);
      assert CharsMeaning(chars) == [c];
    } else {
      HexRoundTrip(0xD800 + (c - 0x10000) / 0x400);
      HexRoundTrip(0xDC00 + (c - 0x10000) % 0x400);
    }
    WholeStringReads(chars, t, i);
    assert |CharsMeaning(chars)| == |chars|;
  }

  // ---- values ----

  /** A value without floats, whose objects have distinct keys, as every dict has. */
  predicate Printable(v: Value) {
    match v
    case Float(_) => false
    case Arr(items) => forall k :: 0 <= k < |items| ==> Printable(items[k])
    case Obj(fields) =>
      && (forall k :: 0 <= k < |fields| ==> Printable(fields[k].1))
      && (forall j, k :: 0 <= j < k < |fields| ==> fields[j].0 != fields[k].0)
    case _ => true
  }

  /** No integer in the value is beyond Python's limit for conversion from decimal text. */
  predicate Convertible(v: Value) {
    match v
    case Int(i) => (if i < 0 then -i else i) < PowerOfTen(MAX_INT_DIGITS)
    case Arr(items) => forall k :: 0 <= k < |items| ==> Convertible(items[k])
    case Obj(fields) => forall k :: 0 <= k < |fields| ==> Convertible(fields[k].1)
    case _ => true
  }

  function PrintInt(i: int): Number {
    Number(i < 0, DigitsOf(if i < 0 then -i else i), None, None)
  }

  /** The value without any white space. */
  function Print(v: Value): Doc
    requires Printable(v)
  {
    match v
    case Null => DNull
    case Bool(b) => DBool(b)
    case Int(i) => DNumber(PrintInt(i))
    case Str(text) => DString(PrintChars(text))
    case Arr(items) => DArray([], seq(|items|, k requires 0 <= k < |items| => Item([], Print(items[k]), [])))
    case Obj(fields) =>
      DObject([], seq(|fields|, k requires 0 <= k < |fields| =>
        Member([], QUOTE, PrintChars(fields[k].0), [], [], Print(fields[k].1), [])))
  }

  /** The document of a value is well formed, means the value, and fits exactly when all its integers convert. */
  lemma {:induction false} PrintMeans(v: Value)
    requires Printable(v)
    ensures Good(Print(v)) && Meaning(Print(v)) == v && (Fits(Print(v)) <==> Convertible(v))
    decreases v, 1, 0
  {
    match v
    case Int(i) =>
      DigitsRoundTrip(if i < 0 then -i else i);
      DigitCount(if i < 0 then -i else i, MAX_INT_DIGITS);
    case Str(text) => CharsRoundTrip(text);
    case Arr(items) =>
      PrintedArray(v);
      PrintedItems(v, |items|);
      PrintedItemsFit(v, 0);
      assert items[..|items|] == items;
    case Obj(fields) =>
      PrintedObject(v);
      PrintedMembers(v, |fields|);
      PrintedMembersFit(v, 0);
      assert fields[..|fields|] == fields;
    case _ =>
  }

  /** The k-th item of an array as it is printed. */
  lemma PrintedItem(v: Value, k: nat)
    requires Printable(v) && v.Arr? && k < |v.items|
    ensures var item := Print(v).items[k];
            && AllSpace(item.before) && AllSpace(item.after)
            && Good(item.doc) && Meaning(item.doc) == v.items[k] && (Fits(item.doc) <==> Convertible(v.items[k]))
    decreases v, 0, 0
  {
    PrintMeans(v.items[k]);
  }

  lemma PrintedArray(v: Value)
    requires Printable(v) && v.Arr?
    ensures Good(Print(v))
    decreases v, 0, 1
  {
    forall k | 0 <= k < |v.items| {
      PrintedItem(v, k);
    }
  }

  lemma {:induction false} PrintedItems(v: Value, n: nat)
    requires Printable(v) && v.Arr? && n <= |v.items| && Good(Print(v))
    ensures ItemsMeaning(Print(v), n) == v.items[..n]
    decreases v, 0, n + 1
  {
    if n > 0 {
      PrintedItems(v, n - 1);
      PrintedItem(v, n - 1);
      assert v.items[..n] == v.items[..n - 1] + [v.items[n - 1]];
    }
  }

  lemma {:induction false} PrintedItemsFit(v: Value, k: nat)
    requires Printable(v) && v.Arr? && k <= |v.items|
    ensures ItemsFit(Print(v), k) <==> forall j :: k <= j < |v.items| ==> Convertible(v.items[j])
    decreases v, 0, |v.items| - k + 1
  {
    if k < |v.items| {
      PrintedItem(v, k);
      PrintedItemsFit(v, k + 1);
    }
  }

  lemma PutNext(fields: seq<(Text, Value)>, n: nat)
    requires n < |fields| && forall j, k :: 0 <= j < k < |fields| ==> fields[j].0 != fields[k].0
    ensures Put(fields[..n], fields[n].0, fields[n].1) == fields[..n + 1]
  {
    PutFresh(fields[..n], fields[n].0, fields[n].1);
    assert fields[..n + 1] == fields[..n] + [fields[n]];
  }

  /** The k-th field of an object as it is printed. */
  lemma PrintedMember(v: Value, k: nat)
    requires Printable(v) && v.Obj? && k < |v.fields|
    ensures var m := Print(v).members[k];
            && AllSpace(m.before) && AllSpace(m.colonBefore) && AllSpace(m.colonAfter) && AllSpace(m.after)
            && Good(m.doc) && Meaning(m.doc) == v.fields[k].1 && (Fits(m.doc) <==> Convertible(v.fields[k].1))
            && GoodChars(m.key) && CharsMeaning(m.key) == v.fields[k].0 && m.quote == QUOTE
    decreases v, 0, 0
  {
    PrintMeans(v.fields[k].1);
    CharsRoundTrip(v.fields[k].0);
  }

  lemma PrintedObject(v: Value)
    requires Printable(v) && v.Obj?
    ensures Good(Print(v))
    decreases v, 0, 1
  {
    forall k | 0 <= k < |v.fields| {
      PrintedMember(v, k);
    }
  }

  lemma {:induction false} PrintedMembers(v: Value, n: nat)
    requires Printable(v) && v.Obj? && n <= |v.fields| && Good(Print(v))
    ensures MembersMeaning(Print(v), n) == v.fields[..n]
    decreases v, 0, n + 1
  {
    if n > 0 {
      PrintedMembers(v, n - 1);
      var key, value := NextPrinted(v, n - 1);
      PutNext(v.fields, n - 1);
    }
  }

  lemma NextPrinted(v: Value, n: nat) returns (key: Text, value: Value)
    requires Printable(v) && v.Obj? && n < |v.fields| && Good(Print(v))
    ensures key == v.fields[n].0 && value == v.fields[n].1
    ensures MembersMeaning(Print(v), n + 1) == Put(MembersMeaning(Print(v), n), key, value)
    decreases v, 0, 1
  {
    PrintedMember(v, n);
    MembersMeaningStep(Print(v), n);
    key, value := v.fields[n].0, v.fields[n].1;
  }

  lemma {:induction false} PrintedMembersFit(v: Value, k: nat)
    requires Printable(v) && v.Obj? && k <= |v.fields|
    ensures MembersFit(Print(v), k) <==> forall j :: k <= j < |v.fields| ==> Convertible(v.fields[j].1)
    decreases v, 0, |v.fields| - k + 1
  {
    if k < |v.fields| {
      PrintedMember(v, k);
      PrintedMembersFit(v, k + 1);
    }
  }

  /** Printing and parsing undo each other, white space around the document included, exactly when every integer
      converts; otherwise parsing fails. */
  lemma ParseUndoesPrint(v: Value, before: Text, after: Text)
    requires Printable(v) && AllSpace(before) && AllSpace(after)
    ensures Good(Print(v))
    ensures ParseText(before + Render(Print(v)) + after) == if Convertible(v) then v else Null
  {
    PrintMeans(v);
    DocumentReads(Print(v), before, after);
  }
}
