/** JSON values, the index-passing parser as functions on the text, and the parser itself. */
module Json {
  import opened Prelude

  /** A Python string: code points, lone surrogates included. */
  type Text = seq<int>

  /** A JSON value.  A float is kept as its lexeme; fields are in the order in which a Python dict keeps them. */
  datatype Value =
    | Null
    | Bool(b: bool)
    | Int(i: int)
    | Float(lexeme: Text)
    | Str(text: Text)
    | Arr(items: seq<Value>)
    | Obj(fields: seq<(Text, Value)>)

  /** `dict[key] = value`: a known key keeps its place. */
  function Put(fields: seq<(Text, Value)>, key: Text, value: Value): seq<(Text, Value)> {
    if fields == [] then [(key, value)]
    else if fields[0].0 == key then [(key, value)] + fields[1..]
    else [fields[0]] + Put(fields[1..], key, value)
  }

  /** The value under a key, None when it is not there. */
  function ValueUnder(fields: seq<(Text, Value)>, key: Text): Option<Value> {
    if fields == [] then None else if fields[0].0 == key then Some(fields[0].1) else ValueUnder(fields[1..], key)
  }

  function KeysOf(fields: seq<(Text, Value)>): seq<Text> {
    if fields == [] then [] else [fields[0].0] + KeysOf(fields[1..])
  }

  /** Assignment to a dict: the key has the new value, every other key keeps its own, and the order of the keys stays, a new
      one going to the end. */
  lemma {:induction false} PutAssigns(fields: seq<(Text, Value)>, key: Text, value: Value)
    ensures forall k :: ValueUnder(Put(fields, key, value), k) == if k == key then Some(value) else ValueUnder(fields, k)
    ensures KeysOf(Put(fields, key, value)) == KeysOf(fields) + if ValueUnder(fields, key).Some? then [] else [key]
  {
    if fields != [] && fields[0].0 != key {
      PutAssigns(fields[1..], key, value);
      assert Put(fields, key, value)[1..] == Put(fields[1..], key, value);
      assert [fields[0].0] + (KeysOf(fields[1..]) + if ValueUnder(fields, key).Some? then [] else [key])
          == KeysOf(fields) + if ValueUnder(fields, key).Some? then [] else [key];
    } else {
      var r := Put(fields, key, value);
      assert r[0] == (key, value) && r[1..] == if fields == [] then [] else fields[1..];
    }
  }

  /** A new key goes to the end. */
  lemma {:induction false} PutFresh(fields: seq<(Text, Value)>, key: Text, value: Value)
    requires forall k :: 0 <= k < |fields| ==> fields[k].0 != key
    ensures Put(fields, key, value) == fields + [(key, value)]
  {
    if fields != [] {
      PutFresh(fields[1..], key, value);
    }
  }

  // ---- characters ----

  const QUOTE: int := '"' as int
  const BACKSLASH: int := '\\' as int
  const COMMA: int := ',' as int
  const COLON: int := ':' as int
  const MINUS: int := '-' as int
  const DOT: int := '.' as int
  const OPEN_BRACE: int := '{' as int
  const CLOSE_BRACE: int := '}' as int
  const OPEN_BRACKET: int := '[' as int
  const CLOSE_BRACKET: int := ']' as int

  const TRUE: Text := ['t' as int, 'r' as int, 'u' as int, 'e' as int]
  const FALSE: Text := ['f' as int, 'a' as int, 'l' as int, 's' as int, 'e' as int]
  const NULL: Text := ['n' as int, 'u' as int, 'l' as int, 'l' as int]

  predicate IsSpace(c: int) {
    c == ' ' as int || c == '\n' as int || c == '\r' as int || c == '\t' as int
  }

  predicate IsDigit(c: int) {
    '0' as int <= c <= '9' as int
  }

  predicate IsExponent(c: int) {
    c == 'e' as int || c == 'E' as int
  }

  predicate IsSign(c: int) {
    c == '+' as int || c == MINUS
  }

  function HexValue(c: int): Option<nat> {
    if IsDigit(c) then Some(c - '0' as int)
    else if 'a' as int <= c <= 'f' as int then Some(c - 'a' as int + 10)
    else if 'A' as int <= c <= 'F' as int then Some(c - 'A' as int + 10)
    else None
  }

  /** The escape table. */
  function Unescaped(letter: int): Option<int> {
    if letter == QUOTE || letter == BACKSLASH || letter == '/' as int then Some(letter)
    else if letter == 'b' as int then Some(0x08)
    else if letter == 'f' as int then Some(0x0C)
    else if letter == 'n' as int then Some(0x0A)
    else if letter == 'r' as int then Some(0x0D)
    else if letter == 't' as int then Some(0x09)
    else None
  }

  /** The value of four hexadecimal digits: one 16-bit unit. */
  function HexUnit(digits: Text): Option<nat> {
    if |digits| == 4 && (forall k :: 0 <= k < 4 ==> HexValue(digits[k]).Some?) then
      Some(((HexValue(digits[0]).value * 16 + HexValue(digits[1]).value) * 16 + HexValue(digits[2]).value) * 16
           + HexValue(digits[3]).value)
    else None
  }

  // ---- scanning ----

  predicate At(t: Text, i: nat, c: int) {
    i < |t| && t[i] == c
  }

  predicate StartsWith(t: Text, i: nat, literal: Text) {
    i + |literal| <= |t| && t[i..i + |literal|] == literal
  }

  function AfterSpace(t: Text, i: nat): (j: nat)
    ensures j >= i && (i <= |t| ==> j <= |t|)
    decreases |t| - i
  {
    if i < |t| && IsSpace(t[i]) then AfterSpace(t, i + 1) else i
  }

  function AfterDigits(t: Text, i: nat): (j: nat)
    ensures j >= i && (i <= |t| ==> j <= |t|)
    decreases |t| - i
  {
    if i < |t| && IsDigit(t[i]) then AfterDigits(t, i + 1) else i
  }

  /** What stands after a backslash at `i`: the character it means and where it ends. */
  function EscapeAt(t: Text, i: nat): (r: Option<(int, nat)>)
    ensures r.Some? ==> i < r.value.1 <= |t|
  {
    if i >= |t| then None
    else if t[i] == 'u' as int then
      if i + 5 > |t| || HexUnit(t[i + 1..i + 5]).None? then None
      else Some((HexUnit(t[i + 1..i + 5]).value, i + 5))
    else if Unescaped(t[i]).None? then None
    else Some((Unescaped(t[i]).value, i + 1))
  }

  /** The rest of a string from `i` on, after `read`. */
  function StringFrom(t: Text, i: nat, read: Text): (r: Option<(Text, nat)>)
    ensures r.Some? ==> i < r.value.1 <= |t|
    decreases |t| - i
  {
    if i >= |t| then None
    else if t[i] == QUOTE then Some((read, i + 1))
    else if t[i] == BACKSLASH then
      match EscapeAt(t, i + 1)
      case None => None
      case Some((c, j)) => StringFrom(t, j, read + [c])
    else StringFrom(t, i + 1, read + [t[i]])
  }

  // ---- numbers ----

  /** Python refuses to convert longer decimal texts to an int. */
  const MAX_INT_DIGITS: nat := 4300

  function DigitsValue(digits: Text): int {
    if digits == [] then 0 else DigitsValue(digits[..|digits| - 1]) * 10 + (digits[|digits| - 1] - '0' as int)
  }

  function ParseInt(raw: Text): Option<Value> {
    var negative := raw != [] && raw[0] == MINUS;
    var digits := if negative then raw[1..] else raw;
    if |digits| > MAX_INT_DIGITS then None
    else Some(Int(if negative then -DigitsValue(digits) else DigitsValue(digits)))
  }

  datatype Parsed = Parsed(value: Value, index: nat)

  /** Where the exponent part that starts at `i` ends, None when it has no digits. */
  function AfterExponent(t: Text, i: nat): (r: Option<nat>)
    ensures r.Some? ==> r.value >= i && (i <= |t| ==> r.value <= |t|)
  {
    if i < |t| && IsExponent(t[i]) then
      var j := if i + 1 < |t| && IsSign(t[i + 1]) then i + 2 else i + 1;
      if AfterDigits(t, j) == j then None else Some(AfterDigits(t, j))
    else Some(i)
  }

  function NumberAt(t: Text, i: nat): (r: Option<Parsed>)
    ensures r.Some? ==> i < r.value.index <= |t|
  {
    var start := if At(t, i, MINUS) then i + 1 else i;
    var whole := AfterDigits(t, start);
    if whole == i || whole == start || whole > |t| then None
    else
      var fraction := if At(t, whole, DOT) then AfterDigits(t, whole + 1) else whole;
      match AfterExponent(t, fraction)
      case None => None
      case Some(end) =>
        if end == whole then
          match ParseInt(t[i..end])
          case None => None
          case Some(v) => Some(Parsed(v, end))
        else Some(Parsed(Float(t[i..end]), end))
  }

  // ---- values ----

  function ValueAt(t: Text, i: nat): (r: Option<Parsed>)
    ensures r.Some? ==> i < r.value.index <= |t|
    decreases |t| - i, 2
  {
    if i >= |t| then None
    else if t[i] == QUOTE then
      match StringFrom(t, i + 1, [])
      case None => None
      case Some((text, j)) => Some(Parsed(Str(text), j))
    else if t[i] == OPEN_BRACE then
      var j := AfterSpace(t, i + 1);
      if At(t, j, CLOSE_BRACE) then Some(Parsed(Obj([]), j + 1)) else MembersFrom(t, j, [])
    else if t[i] == OPEN_BRACKET then
      var j := AfterSpace(t, i + 1);
      if At(t, j, CLOSE_BRACKET) then Some(Parsed(Arr([]), j + 1)) else ItemsFrom(t, j, [])
    else if StartsWith(t, i, TRUE) then Some(Parsed(Bool(true), i + 4))
    else if StartsWith(t, i, FALSE) then Some(Parsed(Bool(false), i + 5))
    else if StartsWith(t, i, NULL) then Some(Parsed(Null, i + 4))
    else if t[i] == MINUS || IsDigit(t[i]) then NumberAt(t, i)
    else None
  }

  /** The members from `i` on, after those already in `fields`. */
  function MembersFrom(t: Text, i: nat, fields: seq<(Text, Value)>): (r: Option<Parsed>)
    ensures r.Some? ==> i < r.value.index <= |t|
    decreases |t| - i, 1
  {
    if i >= |t| then None
    else match MemberAt(t, i)
      case None => None
      case Some((key, parsed)) =>
        var all := Put(fields, key, parsed.value);
        var j := AfterSpace(t, parsed.index);
        if At(t, j, CLOSE_BRACE) then Some(Parsed(Obj(all), j + 1))
        else if !At(t, j, COMMA) then None
        else MembersFrom(t, AfterSpace(t, j + 1), all)
  }

  /** A member at `i`.  The first character is skipped without looking at it. */
  function MemberAt(t: Text, i: nat): (r: Option<(Text, Parsed)>)
    ensures r.Some? ==> i < r.value.1.index <= |t|
    decreases |t| - i, 0
  {
    match StringFrom(t, i + 1, [])
    case None => None
    case Some((key, j)) =>
      var k := AfterSpace(t, j);
      if !At(t, k, COLON) then None
      else match ValueAt(t, AfterSpace(t, k + 1))
        case None => None
        case Some(parsed) => Some((key, parsed))
  }

  function ItemsFrom(t: Text, i: nat, items: seq<Value>): (r: Option<Parsed>)
    ensures r.Some? ==> i < r.value.index <= |t|
    decreases |t| - i, 3
  {
    if i >= |t| then None
    else match ValueAt(t, i)
      case None => None
      case Some(parsed) =>
        var all := items + [parsed.value];
        var j := AfterSpace(t, parsed.index);
        if At(t, j, CLOSE_BRACKET) then Some(Parsed(Arr(all), j + 1))
        else if !At(t, j, COMMA) then None
        else ItemsFrom(t, AfterSpace(t, j + 1), all)
  }

  lemma ArrayValue(t: Text, i: nat, j: nat)
    requires At(t, i, OPEN_BRACKET) && AfterSpace(t, i + 1) == j
    ensures ValueAt(t, i) == if At(t, j, CLOSE_BRACKET) then Some(Parsed(Arr([]), j + 1)) else ItemsFrom(t, j, [])
  {
  }

  lemma ObjectValue(t: Text, i: nat, j: nat)
    requires At(t, i, OPEN_BRACE) && AfterSpace(t, i + 1) == j
    ensures ValueAt(t, i) == if At(t, j, CLOSE_BRACE) then Some(Parsed(Obj([]), j + 1)) else MembersFrom(t, j, [])
  {
  }

  /** One round of the parser over an item, once its value is read; `value` is None when it cannot be read. */
  lemma ItemsRound(t: Text, i: nat, read: seq<Value>, value: Option<Value>, j: nat, m: nat)
    requires i < |t| && AfterSpace(t, j) == m
    requires ValueAt(t, i) == match value case None => None case Some(v) => Some(Parsed(v, j))
    ensures value.None? ==> ItemsFrom(t, i, read).None?
    ensures value.Some? && At(t, m, CLOSE_BRACKET) ==> ItemsFrom(t, i, read) == Some(Parsed(Arr(read + [value.value]), m + 1))
    ensures value.Some? && At(t, m, COMMA) ==>
              ItemsFrom(t, i, read) == ItemsFrom(t, AfterSpace(t, m + 1), read + [value.value])
  {
  }

  /** One round of the parser over a member; `value` is None when it cannot be read. */
  lemma MembersRound(t: Text, i: nat, read: seq<(Text, Value)>, key: Text, value: Option<Value>, j: nat, m: nat)
    requires i < |t| && AfterSpace(t, j) == m
    requires MemberAt(t, i) == match value case None => None case Some(v) => Some((key, Parsed(v, j)))
    ensures value.None? ==> MembersFrom(t, i, read).None?
    ensures value.Some? && At(t, m, CLOSE_BRACE) ==>
              MembersFrom(t, i, read) == Some(Parsed(Obj(Put(read, key, value.value)), m + 1))
    ensures value.Some? && At(t, m, COMMA) ==>
              MembersFrom(t, i, read) == MembersFrom(t, AfterSpace(t, m + 1), Put(read, key, value.value))
  {
  }

  /** `parse`: None of Python, here Null, stands both for failure and for the document `null`. */
  function ParseText(t: Text): Value {
    match ValueAt(t, AfterSpace(t, 0))
    case None => Null
    case Some(parsed) => if AfterSpace(t, parsed.index) == |t| then parsed.value else Null
  }
}
