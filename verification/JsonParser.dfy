/** The parser with its loops, proved to compute the functions of `Json`. */
module JsonParser {
  import opened Prelude
  import opened Json

  method Skip(t: Text, start: nat) returns (i: nat)
    ensures i == AfterSpace(t, start)
  {
    i := start;
    while i < |t| && IsSpace(t[i])
      invariant AfterSpace(t, i) == AfterSpace(t, start)
    {
      i := i + 1;
    }
  }

  method Digits(t: Text, start: nat) returns (i: nat)
    ensures i == AfterDigits(t, start)
  {
    i := start;
    while i < |t| && IsDigit(t[i])
      invariant AfterDigits(t, i) == AfterDigits(t, start)
    {
      i := i + 1;
    }
  }

  /** `_string`: `start` is the index of the opening quote. */
  method ParseString(t: Text, start: nat) returns (r: Option<(Text, nat)>)
    ensures r == StringFrom(t, start + 1, [])
  {
    var chars: Text := [];
    var i := start + 1;
    while i < |t|
      invariant StringFrom(t, i, chars) == StringFrom(t, start + 1, [])
    {
      if t[i] == QUOTE {
        return Some((chars, i + 1));
      }
      if t[i] == BACKSLASH {
        var escaped := EscapeAt(t, i + 1);
        if escaped.None? {
          return None;
        }
        chars, i := chars + [escaped.value.0], escaped.value.1;
        continue;
      }
      chars, i := chars + [t[i]], i + 1;
    }
    r := None;
  }

  /** The exponent part; without digits the conversion of the whole number fails. */
  method SkipExponent(t: Text, start: nat) returns (end: Option<nat>)
    requires start < |t| && IsExponent(t[start])
    ensures end == AfterExponent(t, start)
  {
    var i := start + 1;
    if i < |t| && IsSign(t[i]) {
      i := i + 1;
    }
    var digits := i;
    i := Digits(t, i);
    end := if i == digits then None else Some(i);
  }

  method ParseNumber(t: Text, start: nat) returns (r: Option<Parsed>)
    requires start < |t|
    ensures r == NumberAt(t, start)
  {
    var i: nat := start;
    if At(t, i, MINUS) {
      i := i + 1;
    }
    ghost var first := i;
    i := Digits(t, i);
    assert i != start && i <= |t| ==> |t[start..i]| == i - start && t[start..i][0] == t[start];
    if i == start || t[start..i] == [MINUS] {
      return None;
    }
    var whole := i;
    var isFloat := false;
    if At(t, i, DOT) {
      isFloat := true;
      i := Digits(t, i + 1);
    }
    if i < |t| && IsExponent(t[i]) {
      isFloat := true;
      var end := SkipExponent(t, i);
      if end.None? {
        return None;
      }
      i := end.value;
    }
    var raw := t[start..i];
    if isFloat {
      return Some(Parsed(Float(raw), i));
    }
    var value := ParseInt(raw);
    r := if value.None? then None else Some(Parsed(value.value, i));
  }

  method ParseValue(t: Text, i: nat) returns (r: Option<Parsed>)
    ensures r == ValueAt(t, i)
    decreases |t| - i, 2
  {
    if i >= |t| {
      return None;
    }
    if t[i] == QUOTE {
      var s := ParseString(t, i);
      return if s.None? then None else Some(Parsed(Str(s.value.0), s.value.1));
    }
    if t[i] == OPEN_BRACE {
      r := ParseObject(t, i);
      return;
    }
    if t[i] == OPEN_BRACKET {
      r := ParseArray(t, i);
      return;
    }
    if StartsWith(t, i, TRUE) {
      return Some(Parsed(Bool(true), i + 4));
    }
    if StartsWith(t, i, FALSE) {
      return Some(Parsed(Bool(false), i + 5));
    }
    if StartsWith(t, i, NULL) {
      return Some(Parsed(Null, i + 4));
    }
    if t[i] == MINUS || IsDigit(t[i]) {
      r := ParseNumber(t, i);
      return;
    }
    r := None;
  }

  method ParseObject(t: Text, start: nat) returns (r: Option<Parsed>)
    requires At(t, start, OPEN_BRACE)
    ensures r == ValueAt(t, start)
    decreases |t| - start, 1
  {
    var i := Skip(t, start + 1);
    ObjectValue(t, start, i);
    if At(t, i, CLOSE_BRACE) {
      return Some(Parsed(Obj([]), i + 1));
    }
    r := ParseMembers(t, i);
  }

  /** The loop of `_object`. */
  method ParseMembers(t: Text, start: nat) returns (r: Option<Parsed>)
    ensures r == MembersFrom(t, start, [])
    decreases |t| - start, 1
  {
    var fields: seq<(Text, Value)> := [];
    var i := start;
    while i < |t|
      invariant i >= start && MembersFrom(t, i, fields) == MembersFrom(t, start, [])
      decreases |t| - i
    {
      var member := ParseMember(t, i);
      if member.None? {
        return None;
      }
      var (key, parsed) := member.value;
      ghost var at, read := i, fields;
      fields := Put(fields, key, parsed.value);
      i := Skip(t, parsed.index);
      MembersRound(t, at, read, key, Some(parsed.value), parsed.index, i);
      if At(t, i, CLOSE_BRACE) {
        return Some(Parsed(Obj(fields), i + 1));
      }
      if !At(t, i, COMMA) {
        return None;
      }
      i := Skip(t, i + 1);
    }
    r := None;
  }

  method ParseMember(t: Text, start: nat) returns (r: Option<(Text, Parsed)>)
    ensures r == MemberAt(t, start)
    decreases |t| - start, 0
  {
    var key := ParseString(t, start);
    if key.None? {
      return None;
    }
    var i := Skip(t, key.value.1);
    if !At(t, i, COLON) {
      return None;
    }
    i := Skip(t, i + 1);
    var value := ParseValue(t, i);
    r := if value.None? then None else Some((key.value.0, value.value));
  }

  method ParseArray(t: Text, start: nat) returns (r: Option<Parsed>)
    requires At(t, start, OPEN_BRACKET)
    ensures r == ValueAt(t, start)
    decreases |t| - start, 1
  {
    var i := Skip(t, start + 1);
    ArrayValue(t, start, i);
    if At(t, i, CLOSE_BRACKET) {
      return Some(Parsed(Arr([]), i + 1));
    }
    r := ParseItems(t, i);
  }

  /** The loop of `_array`. */
  method ParseItems(t: Text, start: nat) returns (r: Option<Parsed>)
    ensures r == ItemsFrom(t, start, [])
    decreases |t| - start, 3
  {
    var items: seq<Value> := [];
    var i := start;
    while i < |t|
      invariant i >= start && ItemsFrom(t, i, items) == ItemsFrom(t, start, [])
      decreases |t| - i
    {
      var value := ParseValue(t, i);
      if value.None? {
        return None;
      }
      items := items + [value.value.value];
      i := Skip(t, value.value.index);
      if At(t, i, CLOSE_BRACKET) {
        return Some(Parsed(Arr(items), i + 1));
      }
      if !At(t, i, COMMA) {
        return None;
      }
      i := Skip(t, i + 1);
    }
    r := None;
  }

  method Parse(t: Text) returns (v: Value)
    ensures v == ParseText(t)
  {
    var start := Skip(t, 0);
    var parsed := ParseValue(t, start);
    if parsed.None? {
      return Null;
    }
    var end := Skip(t, parsed.value.index);
    v := if end != |t| then Null else parsed.value.value;
  }

  predicate IsScalar(v: Value) {
    !v.Arr? && !v.Obj?
  }

  /** `parse_flat_json_object`. */
  method ParseFlatObject(t: Text) returns (r: Option<seq<(Text, Value)>>)
    ensures r.Some? <==> ParseText(t).Obj? && forall field :: field in ParseText(t).fields ==> !field.1.Arr? && !field.1.Obj?
    ensures r.Some? ==> r.value == ParseText(t).fields
  {
    var v := Parse(t);
    if !v.Obj? {
      return None;
    }
    var result: seq<(Text, Value)> := [];
    for i := 0 to |v.fields|
      invariant result == v.fields[..i]
      invariant forall field :: field in result ==> IsScalar(field.1)
    {
      if !IsScalar(v.fields[i].1) {
        return None;
      }
      result := result + [v.fields[i]];
    }
    r := Some(result);
  }
}
