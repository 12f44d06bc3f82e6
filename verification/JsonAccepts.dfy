/** The converse of the grammar: whatever the parser accepts is a document of the grammar, read as its meaning. */
module JsonAccepts {
  import opened Prelude
  import opened Json
  import opened JsonGrammar

  // ---- characters ----

  /** The eight escapes of section 7 of RFC 8259, in the order of their letters. */
  const ESCAPE_LETTERS := "\"\\/bfnrt"
  const ESCAPED_CODES: seq<int> := [0x22, 0x5C, 0x2F, 0x08, 0x0C, 0x0A, 0x0D, 0x09]

  lemma EscapeTable(letter: int, code: int)
    ensures Unescaped(letter) == Some(code)
       <==> exists k :: 0 <= k < 8 && letter == ESCAPE_LETTERS[k] as int && code == ESCAPED_CODES[k]
  {
    var s, c := ESCAPE_LETTERS, ESCAPED_CODES;
    assert |s| == 8 && |c| == 8;
    assert s[0] as int == 0x22 && s[1] as int == 0x5C && s[2] == '/' && s[3] == 'b';
    assert s[4] == 'f' && s[5] == 'n' && s[6] == 'r' && s[7] == 't';
    assert c[0] == 0x22 && c[1] == 0x5C && c[2] == 0x2F && c[3] == 0x08 && c[4] == 0x0C && c[5] == 0x0A && c[6] == 0x0D && c[7] == 0x09;
  }

  /** Hexadecimal digits in either case. */
  lemma HexTable(d: nat)
    requires d < 16
    ensures HexValue("0123456789abcdef"[d] as int) == Some(d) && HexValue("0123456789ABCDEF"[d] as int) == Some(d)
  {
    var s, u := "0123456789abcdef", "0123456789ABCDEF";
    assert s[0] == '0' && s[1] == '1' && s[2] == '2' && s[3] == '3' && s[4] == '4' && s[5] == '5' && s[6] == '6' && s[7] == '7';
    assert s[8] == '8' && s[9] == '9' && s[10] == 'a' && s[11] == 'b' && s[12] == 'c' && s[13] == 'd' && s[14] == 'e' && s[15] == 'f';
    assert u[0] == '0' && u[1] == '1' && u[2] == '2' && u[3] == '3' && u[4] == '4' && u[5] == '5' && u[6] == '6' && u[7] == '7';
    assert u[8] == '8' && u[9] == '9' && u[10] == 'A' && u[11] == 'B' && u[12] == 'C' && u[13] == 'D' && u[14] == 'E' && u[15] == 'F';
  }

  lemma HexTableIsAll(c: int)
    ensures HexValue(c).Some? ==>
              var d := HexValue(c).value;
              d < 16 && (c == "0123456789abcdef"[d] as int || c == "0123456789ABCDEF"[d] as int)
  {
    if HexValue(c).Some? {
      HexTable(HexValue(c).value);
      var s, u := "0123456789abcdef", "0123456789ABCDEF";
      assert s[10] == 'a' && s[11] == 'b' && s[12] == 'c' && s[13] == 'd' && s[14] == 'e' && s[15] == 'f';
      assert u[10] == 'A' && u[11] == 'B' && u[12] == 'C' && u[13] == 'D' && u[14] == 'E' && u[15] == 'F';
      assert s[0] == '0' && s[1] == '1' && s[2] == '2' && s[3] == '3' && s[4] == '4' && s[5] == '5' && s[6] == '6' && s[7] == '7';
      assert s[8] == '8' && s[9] == '9';
    }
  }

  /** White space of section 2, digits and signs of section 6, and the limit of Python's int. */
  lemma OtherCharacters(c: int)
    ensures IsSpace(c) <==> c in {0x20, 0x09, 0x0A, 0x0D}
    ensures IsDigit(c) <==> 0x30 <= c <= 0x39
    ensures IsSign(c) <==> c in {0x2B, 0x2D}
    ensures IsExponent(c) <==> c in {0x45, 0x65}
    ensures MAX_INT_DIGITS == 4300
  {
  }

  // ---- pieces of text ----

  lemma HereJoin(t: Text, i: nat, a: Text, b: Text)
    requires Here(t, i, a) && Here(t, i + |a|, b)
    ensures Here(t, i, a + b)
  {
    HereIsSlice(t, i, a);
    HereIsSlice(t, i + |a|, b);
    HereIsSlice(t, i, a + b);
    assert t[i..i + |a + b|] == t[i..i + |a|] + t[i + |a|..i + |a| + |b|];
  }

  lemma HereOne(t: Text, i: nat, c: int)
    requires At(t, i, c)
    ensures Here(t, i, [c])
  {
    assert [c][1..] == [];
  }

  lemma HereFirst(t: Text, i: nat, c: int, rest: Text)
    requires At(t, i, c) && Here(t, i + 1, rest)
    ensures Here(t, i, [c] + rest)
  {
    HereOne(t, i, c);
    HereJoin(t, i, [c], rest);
  }

  /** The white space that is skipped. */
  lemma {:induction false} SpaceAt(t: Text, i: nat) returns (s: Text)
    requires i <= |t|
    ensures AllSpace(s) && Here(t, i, s) && i + |s| == AfterSpace(t, i)
    ensures AfterSpace(t, i) < |t| ==> !IsSpace(t[AfterSpace(t, i)])
    decreases |t| - i
  {
    s := [];
    if i < |t| && IsSpace(t[i]) {
      var rest := SpaceAt(t, i + 1);
      HereFirst(t, i, t[i], rest);
      s := [t[i]] + rest;
    }
  }

  lemma {:induction false} DigitsAt(t: Text, i: nat) returns (s: Text)
    requires i <= |t|
    ensures AllDigits(s) && Here(t, i, s) && i + |s| == AfterDigits(t, i)
    decreases |t| - i
  {
    s := [];
    if i < |t| && IsDigit(t[i]) {
      var rest := DigitsAt(t, i + 1);
      HereFirst(t, i, t[i], rest);
      s := [t[i]] + rest;
    }
  }

  // ---- strings ----

  /** The character of a string that stands at i, and where it ends. */
  lemma CharAt(t: Text, i: nat) returns (c: Char, j: nat)
    requires i < |t| && t[i] != QUOTE && (t[i] == BACKSLASH ==> EscapeAt(t, i + 1).Some?)
    ensures GoodChar(c) && Here(t, i, RenderChar(c)) && j == i + |RenderChar(c)| && i < j <= |t|
    ensures t[i] == BACKSLASH ==> EscapeAt(t, i + 1) == Some((CharMeaning(c), j))
    ensures t[i] != BACKSLASH ==> j == i + 1 && CharMeaning(c) == t[i]
  {
    if t[i] != BACKSLASH {
      c, j := Plain(t[i]), i + 1;
      HereOne(t, i, t[i]);
    } else if t[i + 1] == 'u' as int {
      var digits := t[i + 2..i + 6];
      c, j := Unicode(digits), i + 6;
      HereIsSlice(t, i + 2, digits);
      HereFirst(t, i + 1, 'u' as int, digits);
      HereFirst(t, i, BACKSLASH, ['u' as int] + digits);
      assert [BACKSLASH] + (['u' as int] + digits) == RenderChar(c);
    } else {
      c, j := Short(t[i + 1]), i + 2;
      HereOne(t, i + 1, t[i + 1]);
      HereFirst(t, i, BACKSLASH, [t[i + 1]]);
      assert [BACKSLASH] + [t[i + 1]] == RenderChar(c);
    }
  }

  lemma CharsCons(c: Char, rest: seq<Char>)
    requires GoodChar(c) && GoodChars(rest)
    ensures GoodChars([c] + rest) && RenderTail([c] + rest) == RenderChar(c) + RenderTail(rest)
    ensures CharsMeaning([c] + rest) == [CharMeaning(c)] + CharsMeaning(rest)
  {
    var all := [c] + rest;
    assert all[1..] == rest;
    RenderTailStep(all);
  }

  lemma StringGoesOn(t: Text, i: nat, read: Text, c: Char, j: nat)
    requires i < j <= |t| && t[i] != QUOTE && GoodChar(c)
    requires if t[i] == BACKSLASH then EscapeAt(t, i + 1) == Some((CharMeaning(c), j)) else j == i + 1 && CharMeaning(c) == t[i]
    ensures StringFrom(t, i, read) == StringFrom(t, j, read + [CharMeaning(c)])
  {
  }

  lemma StringBegins(t: Text, i: nat, read: Text)
    requires StringFrom(t, i, read).Some?
    ensures i < |t| && (t[i] == BACKSLASH ==> EscapeAt(t, i + 1).Some?)
    ensures t[i] == QUOTE ==> StringFrom(t, i, read) == Some((read, i + 1))
  {
  }

  lemma {:induction false} StringAt(t: Text, i: nat, read: Text) returns (chars: seq<Char>)
    requires StringFrom(t, i, read).Some?
    ensures GoodChars(chars) && Here(t, i, RenderTail(chars))
    ensures StringFrom(t, i, read) == Some((read + CharsMeaning(chars), i + |RenderTail(chars)|))
    decreases |t| - i
  {
    StringBegins(t, i, read);
    if t[i] == QUOTE {
      chars := [];
      HereOne(t, i, QUOTE);
      assert RenderTail([]) == [QUOTE];
      assert read + CharsMeaning([]) == read;
    } else {
      var c, j := CharAt(t, i);
      StringGoesOn(t, i, read, c, j);
      var rest := StringAt(t, j, read + [CharMeaning(c)]);
      chars := CharsJoined(t, i, read, c, j, rest);
    }
  }

  lemma CharsJoined(t: Text, i: nat, read: Text, c: Char, j: nat, rest: seq<Char>) returns (chars: seq<Char>)
    requires GoodChar(c) && Here(t, i, RenderChar(c)) && j == i + |RenderChar(c)|
    requires GoodChars(rest) && Here(t, j, RenderTail(rest))
    ensures GoodChars(chars) && Here(t, i, RenderTail(chars)) && i + |RenderTail(chars)| == j + |RenderTail(rest)|
    ensures read + CharsMeaning(chars) == read + [CharMeaning(c)] + CharsMeaning(rest)
  {
    CharsCons(c, rest);
    HereJoin(t, i, RenderChar(c), RenderTail(rest));
    chars := [c] + rest;
  }

  lemma WholeStringAt(t: Text, i: nat) returns (chars: seq<Char>)
    requires StringFrom(t, i, []).Some?
    ensures GoodChars(chars) && Here(t, i, RenderTail(chars))
    ensures StringFrom(t, i, []) == Some((CharsMeaning(chars), i + |RenderTail(chars)|))
  {
    chars := StringAt(t, i, []);
    assert [] + CharsMeaning(chars) == CharsMeaning(chars);
  }

  // ---- numbers ----

  lemma ExponentAt(t: Text, i: nat) returns (e: Option<Exponent>)
    requires i <= |t| && AfterExponent(t, i).Some?
    ensures e.Some? ==> GoodExponent(e.value)
    ensures Here(t, i, RenderExponent(e)) && AfterExponent(t, i) == Some(i + |RenderExponent(e)|)
  {
    e := None;
    if i < |t| && IsExponent(t[i]) {
      var sign: Text := if i + 1 < |t| && IsSign(t[i + 1]) then [t[i + 1]] else [];
      var digits := DigitsAt(t, i + 1 + |sign|);
      if sign != [] {
        HereOne(t, i + 1, sign[0]);
      }
      HereJoin(t, i + 1, sign, digits);
      HereFirst(t, i, t[i], sign + digits);
      e := Some(Exponent(t[i], sign, digits));
    }
  }

  lemma FractionAt(t: Text, i: nat) returns (fraction: Option<Text>)
    requires i <= |t|
    ensures fraction.Some? ==> AllDigits(fraction.value)
    ensures Here(t, i, RenderFraction(fraction))
    ensures i + |RenderFraction(fraction)| == if At(t, i, DOT) then AfterDigits(t, i + 1) else i
  {
    fraction := None;
    if At(t, i, DOT) {
      var digits := DigitsAt(t, i + 1);
      HereFirst(t, i, DOT, digits);
      fraction := Some(digits);
    }
  }

  /** Where the parser finds the parts of a number that it accepts. */
  lemma NumberSome(t: Text, i: nat) returns (start: nat, whole: nat, after: nat, end: nat)
    requires NumberAt(t, i).Some?
    ensures start == (if At(t, i, MINUS) then i + 1 else i) && start < whole <= |t| && whole == AfterDigits(t, start)
    ensures after == (if At(t, whole, DOT) then AfterDigits(t, whole + 1) else whole) && after <= |t|
    ensures AfterExponent(t, after) == Some(end)
  {
    start := if At(t, i, MINUS) then i + 1 else i;
    whole := AfterDigits(t, start);
    after := if At(t, whole, DOT) then AfterDigits(t, whole + 1) else whole;
    end := AfterExponent(t, after).value;
  }

  /** The number that has these parts. */
  lemma NumberWith(t: Text, i: nat, start: nat, whole: nat, after: nat, end: nat) returns (n: Number)
    requires start == (if At(t, i, MINUS) then i + 1 else i) && start < whole <= |t| && whole == AfterDigits(t, start)
    requires after == (if At(t, whole, DOT) then AfterDigits(t, whole + 1) else whole) && after <= |t|
    requires AfterExponent(t, after) == Some(end)
    ensures GoodNumber(n) && Here(t, i, RenderSign(n.negative)) && start == i + |RenderSign(n.negative)|
    ensures Here(t, start, n.digits) && whole == start + |n.digits|
    ensures Here(t, whole, RenderFraction(n.fraction)) && after == whole + |RenderFraction(n.fraction)|
    ensures Here(t, after, RenderExponent(n.exponent)) && end == after + |RenderExponent(n.exponent)|
  {
    var digits := DigitsAt(t, start);
    var fraction := FractionAt(t, whole);
    var exponent := ExponentAt(t, after);
    n := Number(At(t, i, MINUS), digits, fraction, exponent);
    SignAt(t, i, start);
  }

  lemma SignAt(t: Text, i: nat, start: nat)
    requires start == (if At(t, i, MINUS) then i + 1 else i) && start <= |t|
    ensures Here(t, i, RenderSign(At(t, i, MINUS))) && start == i + |RenderSign(At(t, i, MINUS))|
  {
    if At(t, i, MINUS) {
      HereOne(t, i, MINUS);
    }
  }

  lemma FourJoined(t: Text, i: nat, a: Text, b: Text, c: Text, d: Text, j: nat, k: nat, l: nat, m: nat) returns (r: Text)
    requires Here(t, i, a) && j == i + |a| && Here(t, j, b) && k == j + |b| && Here(t, k, c) && l == k + |c|
    requires Here(t, l, d) && m == l + |d|
    ensures r == a + (b + (c + d)) && Here(t, i, r) && m == i + |r|
  {
    r := a + (b + (c + d));
    HereJoin(t, k, c, d);
    HereJoin(t, j, b, c + d);
    HereJoin(t, i, a, b + (c + d));
  }

  /** The number that the parser accepts at i, its text, and where its whole part and the number end. */
  lemma NumberTextAt(t: Text, i: nat) returns (n: Number, r: Text, whole: nat, end: nat)
    requires NumberAt(t, i).Some?
    ensures GoodNumber(n) && r == RenderNumber(n) && Here(t, i, r) && end == i + |r| <= |t|
    ensures whole + |RenderFraction(n.fraction)| + |RenderExponent(n.exponent)| == end
    ensures NumberAt(t, i)
         == if end != whole then Some(Parsed(Float(t[i..end]), end))
            else match ParseInt(t[i..end]) case None => None case Some(v) => Some(Parsed(v, end))
  {
    var start, after;
    start, whole, after, end := NumberSome(t, i);
    n := NumberWith(t, i, start, whole, after, end);
    r := FourJoined(t, i, RenderSign(n.negative), n.digits, RenderFraction(n.fraction), RenderExponent(n.exponent),
                    start, whole, after, end);
    NumberFromParts(t, i, start, whole, after, end);
  }

  lemma NumberAtIs(t: Text, i: nat) returns (n: Number)
    requires NumberAt(t, i).Some?
    ensures GoodNumber(n) && Here(t, i, RenderNumber(n)) && NumberFits(n)
    ensures NumberAt(t, i) == Some(Parsed(NumberMeaning(n), i + |RenderNumber(n)|))
  {
    var r, whole, end;
    n, r, whole, end := NumberTextAt(t, i);
    Converted(n, r, t, i, whole, end);
  }

  lemma Converted(n: Number, r: Text, t: Text, i: nat, whole: nat, end: nat)
    requires GoodNumber(n) && r == RenderNumber(n) && Here(t, i, r) && end == i + |r| <= |t| && NumberAt(t, i).Some?
    requires whole + |RenderFraction(n.fraction)| + |RenderExponent(n.exponent)| == end
    requires NumberAt(t, i)
          == if end != whole then Some(Parsed(Float(t[i..end]), end))
             else match ParseInt(t[i..end]) case None => None case Some(v) => Some(Parsed(v, end))
    ensures NumberFits(n) && NumberAt(t, i) == Some(Parsed(NumberMeaning(n), end))
  {
    IntegralLength(n);
    NumberText(n, r, t, i, end);
  }

  // ---- arrays and objects, one element more at the front ----

  lemma {:induction false} ItemsCons(x: Item, open: Text, items: seq<Item>, k: nat)
    requires k < |items|
    ensures RenderItems(DArray(open, [x] + items), k + 1) == RenderItems(DArray(open, items), k)
    decreases |items| - k
  {
    var all := [x] + items;
    assert all[k + 1] == items[k];
    if k + 1 < |items| {
      assert all[k + 2] == items[k + 1];
      ItemsCons(x, open, items, k + 1);
    }
  }

  lemma {:induction false} ItemsMeaningCons(x: Item, open: Text, items: seq<Item>, n: nat)
    requires Good(x.doc) && Good(DArray(open, items)) && Good(DArray(open, [x] + items)) && n <= |items|
    ensures ItemsMeaning(DArray(open, [x] + items), n + 1) == [Meaning(x.doc)] + ItemsMeaning(DArray(open, items), n)
    decreases n
  {
    var all, tail := DArray(open, [x] + items), DArray(open, items);
    if n == 0 {
      assert ItemsMeaning(all, 0) == [] && ItemsMeaning(tail, 0) == [];
      ItemsMeaningStep(all, 0);
    } else {
      assert all.items[n] == items[n - 1];
      ItemsMeaningCons(x, open, items, n - 1);
      ItemsMeaningStep(all, n);
      ItemsMeaningStep(tail, n - 1);
    }
  }

  lemma {:induction false} ItemsFitCons(x: Item, open: Text, items: seq<Item>, k: nat)
    requires k <= |items|
    ensures ItemsFit(DArray(open, [x] + items), k + 1) == ItemsFit(DArray(open, items), k)
    decreases |items| - k
  {
    if k < |items| {
      assert ([x] + items)[k + 1] == items[k];
      ItemsFitCons(x, open, items, k + 1);
    }
  }

  lemma GoodItems(open: Text, items: seq<Item>)
    ensures Good(DArray(open, items)) <==> AllSpace(open) && forall k :: 0 <= k < |items| ==> GoodItem(items[k])
  {
  }

  /** These items stand at i and are what the parser reads there, in front of the closing bracket. */
  ghost predicate ItemsStand(t: Text, i: nat, items: seq<Item>, read: seq<Value>, p: Parsed) {
    var doc := DArray([], items);
    && items != [] && Good(doc) && ItemsFit(doc, 0)
    && Here(t, i, RenderItems(doc, 0)) && p.index == i + |RenderItems(doc, 0)|
    && p.value == Arr(read + ItemsMeaning(doc, |items|))
  }

  lemma LastItemStands(t: Text, i: nat, x: Item, read: seq<Value>, m: nat)
    requires GoodItem(x) && Fits(x.doc) && Here(t, i, Render(x.doc)) && Here(t, i + |Render(x.doc)|, x.after)
    requires m == i + |Render(x.doc)| + |x.after| && At(t, m, CLOSE_BRACKET)
    ensures ItemsStand(t, i, [x], read, Parsed(Arr(read + [Meaning(x.doc)]), m + 1))
  {
    var doc := DArray([], [x]);
    GoodItems([], [x]);
    assert ItemsMeaning(doc, 0) == [];
    ItemsMeaningStep(doc, 0);
    assert ItemsFit(doc, 1);
    HereOne(t, m, CLOSE_BRACKET);
    HereJoin(t, i + |Render(x.doc)|, x.after, [CLOSE_BRACKET]);
    HereJoin(t, i, Render(x.doc), x.after + [CLOSE_BRACKET]);
  }

  lemma NextItemStands(t: Text, i: nat, x: Item, m: nat, next: nat, items: seq<Item>, read: seq<Value>, p: Parsed)
    requires GoodItem(x) && Fits(x.doc) && Here(t, i, Render(x.doc)) && Here(t, i + |Render(x.doc)|, x.after)
    requires m == i + |Render(x.doc)| + |x.after| && At(t, m, COMMA)
    requires ItemsStand(t, next, items, read + [Meaning(x.doc)], p)
    requires Here(t, m + 1, items[0].before) && next == m + 1 + |items[0].before|
    ensures ItemsStand(t, i, [x] + items, read, p)
  {
    var doc, tail := DArray([], [x] + items), DArray([], items);
    GoodItems([], items);
    GoodItems([], [x] + items);
    ItemsMeaningCons(x, [], items, |items|);
    ItemsFitCons(x, [], items, 0);
    NextItemText(t, i, x, m, next, items);
    assert read + [Meaning(x.doc)] + ItemsMeaning(tail, |items|) == read + ItemsMeaning(doc, |doc.items|);
  }

  lemma ItemsFirst(items: seq<Item>)
    requires |items| > 1
    ensures RenderItems(DArray([], items), 0)
         == Render(items[0].doc) + (items[0].after + ([COMMA] + (items[1].before + RenderItems(DArray([], items), 1))))
  {
  }

  lemma NextItemText(t: Text, i: nat, x: Item, m: nat, next: nat, items: seq<Item>)
    requires Here(t, i, Render(x.doc)) && Here(t, i + |Render(x.doc)|, x.after) && items != []
    requires m == i + |Render(x.doc)| + |x.after| && At(t, m, COMMA)
    requires Here(t, m + 1, items[0].before) && next == m + 1 + |items[0].before|
    requires Here(t, next, RenderItems(DArray([], items), 0))
    ensures var text := RenderItems(DArray([], [x] + items), 0);
            Here(t, i, text) && i + |text| == next + |RenderItems(DArray([], items), 0)|
  {
    var r := ThreeJoined(t, i, Render(x.doc), x.after, m, items[0].before, next, RenderItems(DArray([], items), 0));
    ItemsCons(x, [], items, 0);
    ItemsFirst([x] + items);
  }

  /** A value, white space, a comma, white space and the rest. */
  lemma ThreeJoined(t: Text, i: nat, value: Text, after: Text, m: nat, space: Text, next: nat, rest: Text) returns (r: Text)
    requires Here(t, i, value) && Here(t, i + |value|, after) && m == i + |value| + |after| && At(t, m, COMMA)
    requires Here(t, m + 1, space) && next == m + 1 + |space| && Here(t, next, rest)
    ensures r == value + (after + ([COMMA] + (space + rest))) && Here(t, i, r) && i + |r| == next + |rest|
  {
    r := value + (after + ([COMMA] + (space + rest)));
    HereJoin(t, m + 1, space, rest);
    HereFirst(t, m, COMMA, space + rest);
    HereJoin(t, i + |value|, after, [COMMA] + (space + rest));
    HereJoin(t, i, value, after + ([COMMA] + (space + rest)));
  }

  // ---- the same for members ----

  ghost predicate GoodMembers(members: seq<Member>) {
    forall k :: 0 <= k < |members| ==> GoodMember(members[k], false)
  }

  lemma GoodObject(open: Text, members: seq<Member>)
    ensures Good(DObject(open, members))
       <==> AllSpace(open) && GoodMembers(members) && (members != [] ==> members[0].quote != CLOSE_BRACE)
  {
  }

  lemma {:induction false} MembersCons(x: Member, open: Text, members: seq<Member>, k: nat)
    requires k < |members|
    ensures RenderMembers(DObject(open, [x] + members), k + 1) == RenderMembers(DObject(open, members), k)
    decreases |members| - k
  {
    var all := [x] + members;
    assert all[k + 1] == members[k];
    if k + 1 < |members| {
      assert all[k + 2] == members[k + 1];
      MembersCons(x, open, members, k + 1);
    }
    assert RenderAfter(DObject(open, all), k + 1) == RenderAfter(DObject(open, members), k);
  }

  lemma {:induction false} MembersFitCons(x: Member, open: Text, members: seq<Member>, k: nat)
    requires k <= |members|
    ensures MembersFit(DObject(open, [x] + members), k + 1) == MembersFit(DObject(open, members), k)
    decreases |members| - k
  {
    if k < |members| {
      assert ([x] + members)[k + 1] == members[k];
      MembersFitCons(x, open, members, k + 1);
    }
  }

  /** The fields after these members, on top of those already read. */
  function Fields(read: seq<(Text, Value)>, members: seq<Member>): seq<(Text, Value)>
    requires GoodMembers(members)
    decreases |members|
  {
    if members == [] then read
    else
      assert GoodMember(members[0], false);
      Fields(Put(read, CharsMeaning(members[0].key), Meaning(members[0].doc)), members[1..])
  }

  lemma {:induction false} FieldsSnoc(read: seq<(Text, Value)>, members: seq<Member>, m: Member)
    requires GoodMembers(members) && GoodMember(m, false)
    ensures GoodMembers(members + [m])
    ensures Fields(read, members + [m]) == Put(Fields(read, members), CharsMeaning(m.key), Meaning(m.doc))
    decreases |members|
  {
    var all := members + [m];
    if members == [] {
      assert all == [m] && [m][1..] == [];
      assert Fields(Put(read, CharsMeaning(m.key), Meaning(m.doc)), []) == Put(read, CharsMeaning(m.key), Meaning(m.doc));
    } else {
      assert all[1..] == members[1..] + [m];
      FieldsSnoc(Put(read, CharsMeaning(members[0].key), Meaning(members[0].doc)), members[1..], m);
    }
  }

  lemma {:induction false} MeaningIsFields(members: seq<Member>, n: nat)
    requires Good(DObject([], members)) && n <= |members| && GoodMembers(members)
    ensures MembersMeaning(DObject([], members), n) == Fields([], members[..n])
  {
    if n > 0 {
      MeaningIsFields(members, n - 1);
      MembersMeaningStep(DObject([], members), n - 1);
      FieldsSnoc([], members[..n - 1], members[n - 1]);
      assert members[..n] == members[..n - 1] + [members[n - 1]];
    }
  }

  /** These members stand at i and are what the parser reads there, in front of the closing brace. */
  ghost predicate MembersStand(t: Text, i: nat, members: seq<Member>, read: seq<(Text, Value)>, p: Parsed) {
    var doc := DObject([], members);
    && members != [] && GoodMembers(members) && MembersFit(doc, 0)
    && Here(t, i, RenderMembers(doc, 0)) && p.index == i + |RenderMembers(doc, 0)|
    && p.value == Obj(Fields(read, members))
  }

  /** A member without what follows its value. */
  function HeadText(m: Member): Text {
    [m.quote] + (RenderTail(m.key) + (m.colonBefore + ([COLON] + (m.colonAfter + Render(m.doc)))))
  }

  lemma HeadFirst(open: Text, members: seq<Member>)
    requires members != []
    ensures RenderMembers(DObject(open, members), 0) == HeadText(members[0]) + RenderAfter(DObject(open, members), 0)
  {
    var m, after := members[0], RenderAfter(DObject(open, members), 0);
    var value := Render(m.doc) + after;
    assert RenderMembers(DObject(open, members), 0)
        == [m.quote] + (RenderTail(m.key) + (m.colonBefore + ([COLON] + (m.colonAfter + value))));
  }

  lemma LastMemberStands(t: Text, i: nat, x: Member, read: seq<(Text, Value)>, m: nat)
    requires GoodMember(x, false) && Fits(x.doc) && Here(t, i, HeadText(x)) && Here(t, i + |HeadText(x)|, x.after)
    requires m == i + |HeadText(x)| + |x.after| && At(t, m, CLOSE_BRACE)
    ensures MembersStand(t, i, [x], read, Parsed(Obj(Put(read, CharsMeaning(x.key), Meaning(x.doc))), m + 1))
  {
    var doc := DObject([], [x]);
    assert MembersFit(doc, 1);
    assert [x][1..] == [];
    assert Fields(Put(read, CharsMeaning(x.key), Meaning(x.doc)), []) == Put(read, CharsMeaning(x.key), Meaning(x.doc));
    HeadFirst([], [x]);
    HereOne(t, m, CLOSE_BRACE);
    HereJoin(t, i + |HeadText(x)|, x.after, [CLOSE_BRACE]);
    HereJoin(t, i, HeadText(x), x.after + [CLOSE_BRACE]);
  }

  lemma NextMemberStands(t: Text, i: nat, x: Member, m: nat, next: nat, members: seq<Member>, read: seq<(Text, Value)>, p: Parsed)
    requires GoodMember(x, false) && Fits(x.doc) && Here(t, i, HeadText(x)) && Here(t, i + |HeadText(x)|, x.after)
    requires m == i + |HeadText(x)| + |x.after| && At(t, m, COMMA)
    requires MembersStand(t, next, members, Put(read, CharsMeaning(x.key), Meaning(x.doc)), p)
    requires Here(t, m + 1, members[0].before) && next == m + 1 + |members[0].before|
    ensures MembersStand(t, i, [x] + members, read, p)
  {
    var all := [x] + members;
    assert all[1..] == members;
    assert forall k :: 0 < k < |all| ==> all[k] == members[k - 1];
    MembersFitCons(x, [], members, 0);
    NextMemberText(t, i, x, m, next, members);
  }

  lemma NextMemberText(t: Text, i: nat, x: Member, m: nat, next: nat, members: seq<Member>)
    requires Here(t, i, HeadText(x)) && Here(t, i + |HeadText(x)|, x.after) && members != []
    requires m == i + |HeadText(x)| + |x.after| && At(t, m, COMMA)
    requires Here(t, m + 1, members[0].before) && next == m + 1 + |members[0].before|
    requires Here(t, next, RenderMembers(DObject([], members), 0))
    ensures var text := RenderMembers(DObject([], [x] + members), 0);
            Here(t, i, text) && i + |text| == next + |RenderMembers(DObject([], members), 0)|
  {
    var r := ThreeJoined(t, i, HeadText(x), x.after, m, members[0].before, next, RenderMembers(DObject([], members), 0));
    MembersCons(x, [], members, 0);
    HeadFirst([], [x] + members);
    AfterFirst([x] + members);
  }

  lemma AfterFirst(members: seq<Member>)
    requires |members| > 1
    ensures RenderAfter(DObject([], members), 0)
         == members[0].after + ([COMMA] + (members[1].before + RenderMembers(DObject([], members), 1)))
  {
  }

  // ---- values ----

  /** This document stands at i and is what the parser reads there. */
  ghost predicate Stands(t: Text, i: nat, doc: Doc, p: Parsed) {
    Good(doc) && Fits(doc) && Here(t, i, Render(doc)) && p == Parsed(Meaning(doc), i + |Render(doc)|)
  }

  lemma LiteralAt(t: Text, i: nat, doc: Doc)
    requires (doc.DNull? || doc.DBool?) && StartsWith(t, i, Render(doc))
    ensures Stands(t, i, doc, Parsed(Meaning(doc), i + |Render(doc)|))
  {
    HereIsSlice(t, i, Render(doc));
  }

  lemma StringValueAt(t: Text, i: nat) returns (doc: Doc)
    requires At(t, i, QUOTE) && ValueAt(t, i).Some?
    ensures Stands(t, i, doc, ValueAt(t, i).value)
  {
    var chars := WholeStringAt(t, i + 1);
    doc := DString(chars);
    HereFirst(t, i, QUOTE, RenderTail(chars));
  }

  lemma NumberValueAt(t: Text, i: nat) returns (doc: Doc)
    requires i < |t| && (t[i] == MINUS || IsDigit(t[i])) && ValueAt(t, i).Some?
    ensures Stands(t, i, doc, ValueAt(t, i).value)
  {
    NumberValue(t, i);
    var n := NumberAtIs(t, i);
    doc := DNumber(n);
  }

  lemma EmptyArrayStands(t: Text, i: nat, space: Text)
    requires At(t, i, OPEN_BRACKET) && AllSpace(space) && Here(t, i + 1, space) && At(t, i + 1 + |space|, CLOSE_BRACKET)
    ensures Stands(t, i, DArray(space, []), Parsed(Arr([]), i + |space| + 2))
  {
    HereOne(t, i + 1 + |space|, CLOSE_BRACKET);
    HereJoin(t, i + 1, space, [CLOSE_BRACKET]);
    HereFirst(t, i, OPEN_BRACKET, space + [CLOSE_BRACKET]);
    EmptyArray(DArray(space, []));
  }

  lemma ArrayStands(t: Text, i: nat, j: nat, items: seq<Item>, p: Parsed)
    requires At(t, i, OPEN_BRACKET) && ItemsStand(t, j, items, [], p)
    requires Here(t, i + 1, items[0].before) && j == i + 1 + |items[0].before|
    ensures Stands(t, i, DArray([], items), p)
  {
    var doc := DArray([], items);
    HereJoin(t, i + 1, items[0].before, RenderItems(doc, 0));
    HereFirst(t, i, OPEN_BRACKET, items[0].before + RenderItems(doc, 0));
    assert [] + ItemsMeaning(doc, |items|) == ItemsMeaning(doc, |items|);
  }

  lemma EmptyObjectStands(t: Text, i: nat, space: Text)
    requires At(t, i, OPEN_BRACE) && AllSpace(space) && Here(t, i + 1, space) && At(t, i + 1 + |space|, CLOSE_BRACE)
    ensures Stands(t, i, DObject(space, []), Parsed(Obj([]), i + |space| + 2))
  {
    HereOne(t, i + 1 + |space|, CLOSE_BRACE);
    HereJoin(t, i + 1, space, [CLOSE_BRACE]);
    HereFirst(t, i, OPEN_BRACE, space + [CLOSE_BRACE]);
    assert MembersFit(DObject(space, []), 0);
  }

  lemma ObjectStands(t: Text, i: nat, j: nat, members: seq<Member>, p: Parsed)
    requires At(t, i, OPEN_BRACE) && MembersStand(t, j, members, [], p) && members[0].quote != CLOSE_BRACE
    requires Here(t, i + 1, members[0].before) && j == i + 1 + |members[0].before|
    ensures Stands(t, i, DObject([], members), p)
  {
    var doc := DObject([], members);
    GoodObject([], members);
    HereJoin(t, i + 1, members[0].before, RenderMembers(doc, 0));
    HereFirst(t, i, OPEN_BRACE, members[0].before + RenderMembers(doc, 0));
    MeaningIsFields(members, |members|);
    assert members[..|members|] == members;
  }

  /** Whatever the parser accepts at i is a document that stands there. */
  lemma {:induction false} ValueIsDocument(t: Text, i: nat) returns (doc: Doc)
    requires ValueAt(t, i).Some?
    ensures Stands(t, i, doc, ValueAt(t, i).value)
    decreases |t| - i, 2
  {
    if t[i] == QUOTE {
      doc := StringValueAt(t, i);
    } else if t[i] == OPEN_BRACE {
      doc := ObjectIsDocument(t, i);
    } else if t[i] == OPEN_BRACKET {
      doc := ArrayIsDocument(t, i);
    } else if StartsWith(t, i, TRUE) {
      doc := DBool(true);
      LiteralAt(t, i, doc);
    } else if StartsWith(t, i, FALSE) {
      doc := DBool(false);
      LiteralAt(t, i, doc);
    } else if StartsWith(t, i, NULL) {
      doc := DNull;
      LiteralAt(t, i, doc);
    } else {
      doc := NumberValueAt(t, i);
    }
  }

  lemma ArrayIsDocument(t: Text, i: nat) returns (doc: Doc)
    requires At(t, i, OPEN_BRACKET) && ValueAt(t, i).Some?
    ensures Stands(t, i, doc, ValueAt(t, i).value)
    decreases |t| - i, 1
  {
    var j := AfterSpace(t, i + 1);
    var space := SpaceAt(t, i + 1);
    ArrayValue(t, i, j);
    if At(t, j, CLOSE_BRACKET) {
      EmptyArrayStands(t, i, space);
      doc := DArray(space, []);
    } else {
      var items := ItemsAreItems(t, j, [], space, ValueAt(t, i).value);
      ArrayStands(t, i, j, items, ValueAt(t, i).value);
      doc := DArray([], items);
    }
  }

  lemma ItemsGoOn(t: Text, i: nat, read: seq<Value>, p: Parsed) returns (value: Value, j: nat, m: nat)
    requires ItemsFrom(t, i, read) == Some(p)
    ensures i < j <= m <= |t| && ValueAt(t, i) == Some(Parsed(value, j)) && AfterSpace(t, j) == m
    ensures At(t, m, CLOSE_BRACKET) || At(t, m, COMMA)
    ensures At(t, m, CLOSE_BRACKET) ==> p == Parsed(Arr(read + [value]), m + 1)
    ensures !At(t, m, CLOSE_BRACKET) ==> ItemsFrom(t, AfterSpace(t, m + 1), read + [value]) == Some(p)
  {
    value, j := ValueAt(t, i).value.value, ValueAt(t, i).value.index;
    m := AfterSpace(t, j);
  }

  lemma {:induction false} ItemsAreItems(t: Text, i: nat, read: seq<Value>, before: Text, p: Parsed) returns (items: seq<Item>)
    requires ItemsFrom(t, i, read) == Some(p) && AllSpace(before)
    ensures ItemsStand(t, i, items, read, p) && items[0].before == before
    decreases |t| - i, 3
  {
    var value, j, m := ItemsGoOn(t, i, read, p);
    var doc := ValueIsDocument(t, i);
    var after := SpaceAt(t, j);
    items := MoreItems(t, i, Item(before, doc, after), read, m, read + [value], p);
  }

  /** The items from one that is known to stand at i. */
  lemma MoreItems(t: Text, i: nat, x: Item, read: seq<Value>, m: nat, more: seq<Value>, p: Parsed) returns (items: seq<Item>)
    requires GoodItem(x) && Fits(x.doc) && Here(t, i, Render(x.doc)) && Here(t, i + |Render(x.doc)|, x.after)
    requires m == i + |Render(x.doc)| + |x.after| && i < m && (At(t, m, CLOSE_BRACKET) || At(t, m, COMMA))
    requires more == read + [Meaning(x.doc)]
    requires At(t, m, CLOSE_BRACKET) ==> p == Parsed(Arr(more), m + 1)
    requires !At(t, m, CLOSE_BRACKET) ==> ItemsFrom(t, AfterSpace(t, m + 1), more) == Some(p)
    ensures ItemsStand(t, i, items, read, p) && items[0] == x
    decreases |t| - i, 0
  {
    if At(t, m, CLOSE_BRACKET) {
      LastItemStands(t, i, x, read, m);
      items := [x];
    } else {
      var space := SpaceAt(t, m + 1);
      var next := AfterSpace(t, m + 1);
      var rest := ItemsAreItems(t, next, more, space, p);
      NextItemStands(t, i, x, m, next, rest, read, p);
      items := [x] + rest;
    }
  }

  lemma ObjectIsDocument(t: Text, i: nat) returns (doc: Doc)
    requires At(t, i, OPEN_BRACE) && ValueAt(t, i).Some?
    ensures Stands(t, i, doc, ValueAt(t, i).value)
    decreases |t| - i, 1
  {
    var j := AfterSpace(t, i + 1);
    var space := SpaceAt(t, i + 1);
    ObjectValue(t, i, j);
    if At(t, j, CLOSE_BRACE) {
      EmptyObjectStands(t, i, space);
      doc := DObject(space, []);
    } else {
      var members := MembersAreMembers(t, j, [], space, ValueAt(t, i).value);
      ObjectStands(t, i, j, members, ValueAt(t, i).value);
      doc := DObject([], members);
    }
  }

  /** The parts of a member that the parser accepts, up to its value. */
  lemma MemberSome(t: Text, i: nat)
    returns (key: seq<Char>, c: nat, before: Text, colon: nat, after: Text, v: nat)
    requires MemberAt(t, i).Some?
    ensures GoodChars(key) && Here(t, i + 1, RenderTail(key)) && c == i + 1 + |RenderTail(key)|
    ensures AllSpace(before) && Here(t, c, before) && colon == c + |before| && At(t, colon, COLON)
    ensures AllSpace(after) && Here(t, colon + 1, after) && v == colon + 1 + |after| && i < v <= |t|
    ensures ValueAt(t, v).Some? && MemberAt(t, i) == Some((CharsMeaning(key), ValueAt(t, v).value))
  {
    var text;
    text, c, colon, v := MemberParts(t, i);
    key := WholeStringAt(t, i + 1);
    before := SpaceUpTo(t, c, colon);
    after := SpaceUpTo(t, colon + 1, v);
    MemberFromParts(t, i, text, c, colon, v);
  }

  lemma SpaceUpTo(t: Text, i: nat, j: nat) returns (s: Text)
    requires i <= |t| && AfterSpace(t, i) == j
    ensures AllSpace(s) && Here(t, i, s) && j == i + |s|
  {
    s := SpaceAt(t, i);
  }

  lemma MemberParts(t: Text, i: nat) returns (text: Text, c: nat, colon: nat, v: nat)
    requires MemberAt(t, i).Some?
    ensures StringFrom(t, i + 1, []) == Some((text, c)) && i < c <= |t|
    ensures AfterSpace(t, c) == colon && At(t, colon, COLON) && AfterSpace(t, colon + 1) == v && i < v <= |t|
    ensures ValueAt(t, v).Some?
  {
    text, c := StringFrom(t, i + 1, []).value.0, StringFrom(t, i + 1, []).value.1;
    colon := AfterSpace(t, c);
    v := AfterSpace(t, colon + 1);
  }

  /** The member that stands at i, without what follows its value. */
  lemma MemberIsMember(t: Text, i: nat, before: Text) returns (x: Member, j: nat)
    requires i < |t| && !IsSpace(t[i]) && MemberAt(t, i).Some? && AllSpace(before)
    ensures GoodMember(x, false) && Fits(x.doc) && x.before == before && x.quote == t[i]
    ensures Here(t, i, HeadText(x)) && j == i + |HeadText(x)| <= |t|
    ensures MemberAt(t, i) == Some((CharsMeaning(x.key), Parsed(Meaning(x.doc), j)))
    decreases |t| - i, 0
  {
    var key, c, colonBefore, colon, colonAfter, v := MemberSome(t, i);
    var doc := ValueIsDocument(t, v);
    x := Member(before, t[i], key, colonBefore, colonAfter, doc, []);
    j := HeadStands(t, i, x, c, colon, v);
  }

  lemma HeadStands(t: Text, i: nat, x: Member, c: nat, colon: nat, v: nat) returns (j: nat)
    requires At(t, i, x.quote) && Here(t, i + 1, RenderTail(x.key)) && c == i + 1 + |RenderTail(x.key)|
    requires Here(t, c, x.colonBefore) && colon == c + |x.colonBefore| && At(t, colon, COLON)
    requires Here(t, colon + 1, x.colonAfter) && v == colon + 1 + |x.colonAfter| && Here(t, v, Render(x.doc))
    ensures Here(t, i, HeadText(x)) && j == v + |Render(x.doc)| == i + |HeadText(x)|
  {
    j := v + |Render(x.doc)|;
    var value := ColonJoined(t, c, x.colonBefore, colon, x.colonAfter, v, Render(x.doc));
    HereJoin(t, i + 1, RenderTail(x.key), value);
    HereFirst(t, i, x.quote, RenderTail(x.key) + value);
  }

  /** White space, a colon, white space and the rest. */
  lemma ColonJoined(t: Text, c: nat, before: Text, colon: nat, after: Text, v: nat, rest: Text) returns (r: Text)
    requires Here(t, c, before) && colon == c + |before| && At(t, colon, COLON)
    requires Here(t, colon + 1, after) && v == colon + 1 + |after| && Here(t, v, rest)
    ensures r == before + ([COLON] + (after + rest)) && Here(t, c, r) && v + |rest| == c + |r|
  {
    r := before + ([COLON] + (after + rest));
    HereJoin(t, colon + 1, after, rest);
    HereFirst(t, colon, COLON, after + rest);
    HereJoin(t, c, before, [COLON] + (after + rest));
  }

  /** After a member that is read comes the closing brace, or a comma and more members. */
  lemma MembersGoOn(t: Text, i: nat, read: seq<(Text, Value)>, key: Text, value: Value, j: nat, m: nat)
    requires i < |t| && MemberAt(t, i) == Some((key, Parsed(value, j))) && AfterSpace(t, j) == m
    requires MembersFrom(t, i, read).Some?
    ensures At(t, m, CLOSE_BRACE) || At(t, m, COMMA)
    ensures At(t, m, CLOSE_BRACE) ==> MembersFrom(t, i, read) == Some(Parsed(Obj(Put(read, key, value)), m + 1))
    ensures !At(t, m, CLOSE_BRACE) ==> MembersFrom(t, i, read) == MembersFrom(t, AfterSpace(t, m + 1), Put(read, key, value))
  {
  }

  lemma MembersBegin(t: Text, i: nat, read: seq<(Text, Value)>)
    requires MembersFrom(t, i, read).Some?
    ensures i < |t| && MemberAt(t, i).Some?
  {
  }

  lemma {:induction false} MembersAreMembers(t: Text, i: nat, read: seq<(Text, Value)>, before: Text, p: Parsed)
    returns (members: seq<Member>)
    requires MembersFrom(t, i, read) == Some(p) && AllSpace(before) && (i < |t| ==> !IsSpace(t[i]))
    ensures MembersStand(t, i, members, read, p)
    ensures i < |t| && members[0].before == before && members[0].quote == t[i]
    decreases |t| - i, 1
  {
    MembersBegin(t, i, read);
    var y, j := MemberIsMember(t, i, before);
    var after := SpaceAt(t, j);
    var m := AfterSpace(t, j);
    var x := y.(after := after);
    var key, value := CharsMeaning(x.key), Meaning(x.doc);
    MembersGoOn(t, i, read, key, value, j, m);
    members := MoreMembers(t, i, x, read, m, Put(read, key, value), p);
  }

  /** The members from one that is known to stand at i. */
  lemma MoreMembers(t: Text, i: nat, x: Member, read: seq<(Text, Value)>, m: nat, more: seq<(Text, Value)>, p: Parsed)
    returns (members: seq<Member>)
    requires GoodMember(x, false) && Fits(x.doc) && Here(t, i, HeadText(x)) && Here(t, i + |HeadText(x)|, x.after)
    requires m == i + |HeadText(x)| + |x.after| && i < m && (At(t, m, CLOSE_BRACE) || At(t, m, COMMA))
    requires more == Put(read, CharsMeaning(x.key), Meaning(x.doc))
    requires At(t, m, CLOSE_BRACE) ==> p == Parsed(Obj(more), m + 1)
    requires !At(t, m, CLOSE_BRACE) ==> MembersFrom(t, AfterSpace(t, m + 1), more) == Some(p)
    ensures MembersStand(t, i, members, read, p) && members[0] == x
    decreases |t| - i, 0
  {
    if At(t, m, CLOSE_BRACE) {
      LastMemberStands(t, i, x, read, m);
      members := [x];
    } else {
      var space := SpaceAt(t, m + 1);
      var next := AfterSpace(t, m + 1);
      var rest := MembersAreMembers(t, next, more, space, p);
      NextMemberStands(t, i, x, m, next, rest, read, p);
      members := [x] + rest;
    }
  }

  // ---- whole texts ----

  /** The text is a document with white space around it. */
  ghost predicate IsText(t: Text, before: Text, doc: Doc, after: Text) {
    AllSpace(before) && AllSpace(after) && Good(doc) && t == before + Render(doc) + after
  }

  /** A text that is not read as failure is a document that fits, with white space around it, and is read as its meaning. */
  lemma AcceptedIsDocument(t: Text) returns (before: Text, doc: Doc, after: Text)
    requires ParseText(t) != Null
    ensures IsText(t, before, doc, after) && Fits(doc) && ParseText(t) == Meaning(doc)
  {
    var i, p := ValueOfText(t);
    before := SpaceAt(t, 0);
    doc := ValueIsDocument(t, i);
    after := SpaceAt(t, p.index);
    HereSlice(t, 0, before);
    HereSlice(t, i, Render(doc));
    HereSlice(t, p.index, after);
    ThreeSlices(t, i, p.index, before, Render(doc), after);
  }

  lemma ThreeSlices(t: Text, i: nat, j: nat, before: Text, r: Text, after: Text)
    requires i <= j <= |t| && t[0..i] == before && t[i..j] == r && t[j..|t|] == after
    ensures t == before + r + after
  {
  }

  lemma ValueOfText(t: Text) returns (i: nat, p: Parsed)
    requires ParseText(t) != Null
    ensures AfterSpace(t, 0) == i && ValueAt(t, i) == Some(p) && AfterSpace(t, p.index) == |t| && ParseText(t) == p.value
  {
    i := AfterSpace(t, 0);
    p := ValueAt(t, i).value;
  }

  /** The parser gives a value other than null exactly to the texts of documents with that meaning. */
  lemma ParsesIff(t: Text, v: Value)
    requires v != Null
    ensures ParseText(t) == v
       <==> exists before, doc, after :: IsText(t, before, doc, after) && Fits(doc) && Meaning(doc) == v
  {
    if ParseText(t) == v {
      var before, doc, after := AcceptedIsDocument(t);
    }
    if before, doc, after :| IsText(t, before, doc, after) && Fits(doc) && Meaning(doc) == v {
      DocumentReads(doc, before, after);
    }
  }

  /** So what is no document is refused, and a text is never read in two ways. */
  lemma OthersAreRefused(t: Text)
    requires !exists before, doc, after :: IsText(t, before, doc, after) && Fits(doc)
    ensures ParseText(t) == Null
  {
    if ParseText(t) != Null {
      var before, doc, after := AcceptedIsDocument(t);
    }
  }

  lemma OneMeaning(t: Text, before: Text, doc: Doc, after: Text, before': Text, doc': Doc, after': Text)
    requires IsText(t, before, doc, after) && IsText(t, before', doc', after') && Fits(doc) && Fits(doc')
    ensures Meaning(doc) == Meaning(doc')
  {
    DocumentReads(doc, before, after);
    DocumentReads(doc', before', after');
  }
}
