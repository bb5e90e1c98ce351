/** httpcommon.cc: the attribute lists of authentication headers, and the quoting that the
    parser undoes. */
module HttpAttributes {
  import opened HttpText
  import opened Sequences

  datatype Attribute = Attribute(name: string, value: string)

  // A parsed value and the number of characters it took.
  datatype Value = Value(text: string, used: nat)

  // IsEndOfAttributeName, for what follows a position.
  predicate EndsName(s: string) {
    || s == "" || IsSpace(s[0])
    || (|s| > 1 && s[0] == '=' && !IsSpace(s[1]) && s[1] != '=')
  }

  function NameLength(s: string): (n: nat)
    ensures n <= |s| && (n < |s| ==> EndsName(s[n..]))
  {
    if EndsName(s) then 0 else 1 + NameLength(s[1..])
  }

  // What follows an opening quote, up to the closing one.
  function QuotedValue(s: string): (v: Value)
    ensures v.used <= |s|
    decreases |s|
  {
    if s == "" then Value("", 0)
    else if s[0] == '"' then Value("", 1)
    else
      var n := if s[0] == '\\' && |s| > 1 then 2 else 1;
      var rest := QuotedValue(s[n..]);
      Value([s[n - 1]] + rest.text, n + rest.used)
  }

  predicate EndsToken(s: string) { s == "" || IsSpace(s[0]) || s[0] == ',' }

  function TokenLength(s: string): (n: nat)
    ensures n <= |s|
  {
    if EndsToken(s) then 0 else 1 + TokenLength(s[1..])
  }

  // The value after a name, if there is one.
  function ValueAfter(s: string): (v: Value)
    ensures v.used <= |s| && (s != "" && s[0] == '=' ==> v.used > 0)
  {
    if s == "" || s[0] != '=' then Value("", 0)
    else if |s| > 1 && s[1] == '"' then
      var v := QuotedValue(s[2..]);
      Value(v.text, 2 + v.used)
    else
      var n := TokenLength(s[1..]);
      Value(s[1..1 + n], 1 + n)
  }

  function CommaAfter(s: string): (n: nat)
    ensures n <= |s|
  {
    if s != "" && s[0] == ',' then 1 else 0
  }

  function Name(s: string): string { s[..NameLength(s)] }

  function Length(s: string): (n: nat)
    ensures n <= |s|
  {
    var n := NameLength(s);
    var m := n + ValueAfter(s[n..]).used;
    m + CommaAfter(s[m..])
  }

  function First(s: string): Attribute { Attribute(Name(s), ValueAfter(s[NameLength(s)..]).text) }

  // Every attribute takes at least one character, so that parsing comes to an end.
  function Rest(s: string): (r: string)
    requires s != "" && !IsSpace(s[0])
    ensures |r| < |s|
  {
    s[Length(s)..]
  }

  function DropSpaces(s: string): (r: string)
    ensures |r| <= |s| && (r != "" ==> !IsSpace(r[0]))
  {
    if s != "" && IsSpace(s[0]) then DropSpaces(s[1..]) else s
  }

  /** The attributes in a text. */
  function Parsed(s: string): seq<Attribute>
    decreases |s|, 1
  {
    Attrs(DropSpaces(s))
  }

  function Attrs(s: string): seq<Attribute>
    requires s != "" ==> !IsSpace(s[0])
    decreases |s|, 0
  {
    if s == "" then [] else [First(s)] + Parsed(Rest(s))
  }

  method ParseName(data: string, start: nat) returns (pos: nat)
    requires start <= |data|
    ensures pos == start + NameLength(data[start..])
  {
    pos := start;
    while !EndsNameAt(data, pos)
      invariant start <= pos <= |data| && start + NameLength(data[start..]) == pos + NameLength(data[pos..])
      decreases |data| - pos
    {
      assert data[pos..][1..] == data[pos + 1..];
      pos := pos + 1;
    }
  }

  // IsEndOfAttributeName.
  predicate EndsNameAt(data: string, pos: nat)
    requires pos <= |data|
  {
    assert pos < |data| ==> data[pos..][0] == data[pos];
    assert pos + 1 < |data| ==> data[pos..][1] == data[pos + 1];
    EndsName(data[pos..])
  }

  method ParseQuoted(data: string, start: nat) returns (pos: nat, text: string)
    requires start < |data|
    ensures var v := QuotedValue(data[start + 1..]);
            text == v.text && pos == start + 1 + v.used
  {
    pos, text := start + 1, "";
    ghost var whole := QuotedValue(data[start + 1..]);
    while pos < |data|
      invariant start < pos <= |data|
      invariant var rest := QuotedValue(data[pos..]);
                whole.text == text + rest.text && start + 1 + whole.used == pos + rest.used
      decreases |data| - pos
    {
      QuotedStep(data, pos);
      if data[pos] == '"' {
        assert text + "" == text;
        return pos + 1, text;
      }
      if data[pos] == '\\' && pos + 1 < |data| {
        pos := pos + 1;
      }
      Associative(text, [data[pos]], QuotedValue(data[pos + 1..]).text);
      text := text + [data[pos]];
      pos := pos + 1;
    }
    assert text + "" == text;
  }

  lemma QuotedStep(data: string, pos: nat)
    requires pos < |data|
    ensures var n := if data[pos] == '\\' && pos + 1 < |data| then 2 else 1;
            var rest := QuotedValue(data[pos + n..]);
            QuotedValue(data[pos..]) == if data[pos] == '"' then Value("", 1)
                                        else Value([data[pos + n - 1]] + rest.text, n + rest.used)
  {
    var s := data[pos..];
    assert s[0] == data[pos] && s[1..] == data[pos + 1..];
    if pos + 1 < |data| { assert s[1] == data[pos + 1] && s[2..] == data[pos + 2..]; }
  }

  method ParseToken(data: string, start: nat) returns (pos: nat, text: string)
    requires start <= |data|
    ensures pos == start + TokenLength(data[start..]) <= |data| && text == data[start..pos]
  {
    pos, text := start, "";
    while pos < |data| && !IsSpace(data[pos]) && data[pos] != ','
      invariant start <= pos <= |data| && text == data[start..pos]
      invariant start + TokenLength(data[start..]) == pos + TokenLength(data[pos..])
      decreases |data| - pos
    {
      assert data[pos..][0] == data[pos] && data[pos..][1..] == data[pos + 1..];
      text := text + [data[pos]];
      pos := pos + 1;
    }
  }

  lemma Tail(data: string, a: nat, b: nat)
    requires a <= b <= |data|
    ensures data[a..][b - a..] == data[b..]
  {
  }

  lemma Front(data: string, a: nat, b: nat)
    requires a <= b <= |data|
    ensures data[a..][..b - a] == data[a..b]
  {
  }

  method ParseValue(data: string, start: nat) returns (pos: nat, text: string)
    requires start <= |data|
    ensures var v := ValueAfter(data[start..]);
            text == v.text && pos == start + v.used
  {
    pos, text := start, "";
    if pos < |data| && data[pos] == '=' {
      pos, text := ParseAfterSign(data, pos + 1);
      ValueAfterSign(data, start);
    }
  }

  // The value without its equals sign.
  function SignedValue(s: string): (v: Value)
    ensures v.used <= |s|
  {
    if s != "" && s[0] == '"' then
      var v := QuotedValue(s[1..]);
      Value(v.text, 1 + v.used)
    else
      Value(s[..TokenLength(s)], TokenLength(s))
  }

  lemma ValueAfterSign(data: string, start: nat)
    requires start < |data| && data[start] == '='
    ensures var v := SignedValue(data[start + 1..]);
            ValueAfter(data[start..]) == Value(v.text, 1 + v.used)
  {
    var s := data[start..];
    Tail(data, start, start + 1);
    if |s| > 1 && s[1] == '"' {
      DropTwice(s, 1, 1);
    } else {
      assert s[1..1 + TokenLength(s[1..])] == s[1..][..TokenLength(s[1..])];
    }
  }

  method ParseAfterSign(data: string, start: nat) returns (pos: nat, text: string)
    requires start <= |data|
    ensures var v := SignedValue(data[start..]);
            text == v.text && pos == start + v.used
  {
    if start < |data| && data[start] == '"' {
      Tail(data, start, start + 1);
      pos, text := ParseQuoted(data, start);
    } else {
      pos, text := ParseToken(data, start);
      Front(data, start, pos);
    }
  }

  // The first attribute of a text that falls into its name, its value and a comma.
  lemma AttributeParts(s: string, t: string, u: string)
    requires t == s[NameLength(s)..] && u == t[ValueAfter(t).used..]
    requires s != "" && !IsSpace(s[0])
    ensures First(s) == Attribute(s[..NameLength(s)], ValueAfter(t).text)
    ensures Rest(s) == u[CommaAfter(u)..]
  {
    LengthOf(s, t, u);
    RestOf(s, NameLength(s), t, ValueAfter(t).used, u, CommaAfter(u), Length(s));
  }

  lemma RestOf(s: string, n: nat, t: string, m: nat, u: string, k: nat, length: nat)
    requires n <= |s| && t == s[n..] && m <= |t| && u == t[m..] && k <= |u|
    requires length == n + m + k
    ensures s[length..] == u[k..]
  {
    DropTwice(s, n, m);
    DropTwice(s, n + m, k);
  }

  lemma LengthOf(s: string, t: string, u: string)
    requires t == s[NameLength(s)..] && u == t[ValueAfter(t).used..]
    ensures Length(s) == NameLength(s) + ValueAfter(t).used + CommaAfter(u)
  {
    DropTwice(s, NameLength(s), ValueAfter(t).used);
  }

  lemma PairParts(data: string, start: nat, at: nat, end: nat)
    requires start <= |data| && at == start + NameLength(data[start..]) && end == at + ValueAfter(data[at..]).used
    requires data[start..] != "" && !IsSpace(data[start..][0])
    ensures start <= end <= |data|
    ensures First(data[start..]) == Attribute(data[start..at], ValueAfter(data[at..]).text)
    ensures Rest(data[start..]) == data[end..][CommaAfter(data[end..])..]
  {
    Front(data, start, at);
    Tail(data, start, at);
    Tail(data, at, end);
    AttributeParts(data[start..], data[at..], data[end..]);
  }

  // A name and its value, up to the comma.
  method ParsePair(data: string, start: nat) returns (pos: nat, attribute: Attribute)
    requires start < |data| && !IsSpace(data[start])
    ensures start <= pos <= |data| && attribute == First(data[start..])
    ensures Rest(data[start..]) == data[pos..][CommaAfter(data[pos..])..]
  {
    pos := ParseName(data, start);
    var name := data[start..pos];
    ghost var at := pos;
    var text;
    pos, text := ParseValue(data, pos);
    attribute := Attribute(name, text);
    PairParts(data, start, at, pos);
  }

  method ParseAttribute(data: string, start: nat) returns (pos: nat, attribute: Attribute)
    requires start < |data| && !IsSpace(data[start])
    ensures start < pos <= |data| && attribute == First(data[start..]) && data[pos..] == Rest(data[start..])
  {
    pos, attribute := ParsePair(data, start);
    ghost var end := pos;
    if pos < |data| && data[pos] == ',' {
      pos := pos + 1;
    }
    Tail(data, end, pos);
    assert |data[pos..]| == |Rest(data[start..])| < |data[start..]|;
  }

  method HttpParseAttributes(data: string, before: seq<Attribute>) returns (attributes: seq<Attribute>)
    ensures attributes == before + Parsed(data)
  {
    attributes := before;
    var pos := 0;
    assert data[0..] == data;
    while true
      invariant pos <= |data| && attributes + Parsed(data[pos..]) == before + Parsed(data)
      decreases |data| - pos
    {
      pos := SkipSpaces(data, pos);
      ghost var s := data[pos..];
      assert attributes + Attrs(s) == before + Parsed(data);
      if pos >= |data| {
        assert attributes + [] == attributes;
        return;
      }
      var attribute;
      pos, attribute := ParseAttribute(data, pos);
      Associative(attributes, [attribute], Parsed(Rest(s)));
      attributes := attributes + [attribute];
    }
  }

  method SkipSpaces(data: string, start: nat) returns (pos: nat)
    requires start <= |data|
    ensures start <= pos <= |data| && data[pos..] == DropSpaces(data[start..])
  {
    pos := start;
    while pos < |data| && IsSpace(data[pos])
      invariant start <= pos <= |data| && DropSpaces(data[start..]) == DropSpaces(data[pos..])
    {
      assert data[pos..][1..] == data[pos + 1..];
      pos := pos + 1;
    }
  }

  function EscapedChar(c: char): string { if c == '"' || c == '\\' then ['\\', c] else [c] }

  function Escaped(s: string): string {
    if s == "" then "" else EscapedChar(s[0]) + Escaped(s[1..])
  }

  function Quote(s: string): string { "\"" + (Escaped(s) + "\"") }

  method QuoteString(str: string) returns (result: string)
    ensures result == Quote(str)
  {
    result := "\"";
    var i := 0;
    while i < |str|
      invariant i <= |str| && result + Escaped(str[i..]) == "\"" + Escaped(str)
    {
      ghost var before := result;
      if str[i] == '"' || str[i] == '\\' {
        result := result + ['\\'];
      }
      result := result + [str[i]];
      assert str[i..][1..] == str[i + 1..];
      assert result == before + EscapedChar(str[i]);
      Associative(before, EscapedChar(str[i]), Escaped(str[i + 1..]));
      i := i + 1;
    }
    assert result == "\"" + Escaped(str);
    Associative("\"", Escaped(str), "\"");
    result := result + ['"'];
  }

  lemma EscapedCharIsRead(c: char, rest: string)
    ensures QuotedValue(EscapedChar(c) + rest) == Value([c] + QuotedValue(rest).text, |EscapedChar(c)| + QuotedValue(rest).used)
  {
    assert (EscapedChar(c) + rest)[|EscapedChar(c)|..] == rest;
  }

  // The parser reads back what was quoted, whatever follows.
  lemma {:induction false} QuoteIsRead(v: string, after: string)
    ensures QuotedValue(Escaped(v) + ("\"" + after)) == Value(v, |Escaped(v)| + 1)
    decreases |v|
  {
    var tail := "\"" + after;
    if v == "" {
      assert Escaped(v) + tail == tail;
    } else {
      QuoteIsRead(v[1..], after);
      EscapedCharIsRead(v[0], Escaped(v[1..]) + tail);
      Associative(EscapedChar(v[0]), Escaped(v[1..]), tail);
      assert v == [v[0]] + v[1..];
    }
  }

  /** What is listed in a header: a name with a quoted value, or with a bare token. */
  datatype Item = Quoted(name: string, value: string) | Token(name: string, value: string)

  predicate PlainName(name: string) {
    forall k :: 0 <= k < |name| ==> !IsSpace(name[k]) && name[k] != '='
  }

  predicate PlainToken(value: string) {
    && value != "" && value[0] != '"' && value[0] != '='
    && forall k :: 0 <= k < |value| ==> !IsSpace(value[k]) && value[k] != ','
  }

  predicate Listable(item: Item) {
    PlainName(item.name) && (item.Token? ==> PlainToken(item.value))
  }

  function ValueText(item: Item): string { if item.Quoted? then Quote(item.value) else item.value }

  function ItemText(item: Item): string { item.name + ("=" + ValueText(item)) }

  function Listed(items: seq<Item>): string
    decreases |items|, 0
  {
    if items == [] then "" else ItemText(items[0]) + Following(items[1..])
  }

  function Following(items: seq<Item>): string
    decreases |items|, 1
  {
    if items == [] then "" else "," + (" " + Listed(items))
  }

  function Attributes(items: seq<Item>): seq<Attribute> {
    if items == [] then [] else [Attribute(items[0].name, items[0].value)] + Attributes(items[1..])
  }

  lemma {:induction false} PlainNameIsRead(name: string, after: string)
    requires PlainName(name) && EndsName(after)
    ensures NameLength(name + after) == |name|
    decreases |name|
  {
    if name == "" {
      assert name + after == after;
    } else {
      assert (name + after)[1..] == name[1..] + after;
      PlainNameIsRead(name[1..], after);
    }
  }

  lemma {:induction false} TokenIsRead(token: string, after: string)
    requires (forall k :: 0 <= k < |token| ==> !IsSpace(token[k]) && token[k] != ',') && EndsToken(after)
    ensures TokenLength(token + after) == |token|
    decreases |token|
  {
    if token == "" {
      assert token + after == after;
    } else {
      assert (token + after)[1..] == token[1..] + after;
      TokenIsRead(token[1..], after);
    }
  }

  lemma QuotedAfterName(v: string, after: string)
    ensures ValueAfter("=" + Quote(v) + after) == Value(v, 1 + |Quote(v)|)
  {
    var text, rest := "=" + Quote(v) + after, Escaped(v) + ("\"" + after);
    QuoteIsRead(v, after);
    assert text == "=\"" + rest;
    assert text[2..] == rest;
  }

  lemma TokenAfterName(v: string, after: string)
    requires PlainToken(v) && EndsToken(after)
    ensures ValueAfter("=" + v + after) == Value(v, 1 + |v|)
  {
    var text, rest := "=" + v + after, v + after;
    TokenIsRead(v, after);
    assert text[1] == v[0] && text[1..] == rest && text[1..1 + |v|] == v;
  }

  lemma ValueIsRead(item: Item, after: string)
    requires Listable(item) && EndsToken(after)
    ensures ValueAfter("=" + ValueText(item) + after) == Value(item.value, 1 + |ValueText(item)|)
  {
    if item.Quoted? { QuotedAfterName(item.value, after); } else { TokenAfterName(item.value, after); }
  }

  // A name and then whatever its value is read from.
  lemma NameThenValue(name: string, value: string)
    requires PlainName(name) && EndsName(value)
    ensures var v := ValueAfter(value);
            First(name + value) == Attribute(name, v.text)
            && Length(name + value) == |name| + v.used + CommaAfter(value[v.used..])
  {
    var text, m := name + value, |name| + ValueAfter(value).used;
    PlainNameIsRead(name, value);
    assert text[..|name|] == name && text[|name|..] == value;
    assert text[m..] == value[m - |name|..];
  }

  lemma ItemIsRead(item: Item, after: string)
    requires Listable(item) && (after == "" || after[0] == ',')
    ensures var text := ItemText(item) + after;
            && text != "" && !IsSpace(text[0]) && First(text) == Attribute(item.name, item.value)
            && Length(text) == |ItemText(item)| + CommaAfter(after)
  {
    var value := "=" + ValueText(item) + after;
    Associative(item.name, "=" + ValueText(item), after);
    ValueStarts(item, after);
    NameThenValue(item.name, value);
    ValueIsRead(item, after);
    DropBoth("=" + ValueText(item), after, 0);
  }

  lemma DropBoth(a: string, b: string, k: nat)
    requires k <= |b|
    ensures (a + b)[|a| + k..] == b[k..] && b[0..] == b
  {
  }

  lemma ValueStarts(item: Item, after: string)
    requires Listable(item)
    ensures EndsName("=" + ValueText(item) + after)
  {
    var text := "=" + ValueText(item) + after;
    assert text[1] == ValueText(item)[0];
  }

  /** Parsing a list of items gives that list. */
  lemma {:induction false} ListIsRead(items: seq<Item>)
    requires forall k :: 0 <= k < |items| ==> Listable(items[k])
    ensures DropSpaces(Listed(items)) == Listed(items) && Parsed(Listed(items)) == Attributes(items)
    decreases |items|
  {
    if items != [] {
      var rest := items[1..];
      ListIsRead(rest);
      OneSpace(Listed(rest));
      OneItem(items[0], Following(rest), if rest == [] then "" else " " + Listed(rest));
    }
  }

  lemma OneItem(item: Item, after: string, rest: string)
    requires Listable(item) && (if after == "" then rest == "" else after == "," + rest)
    ensures var text := ItemText(item) + after;
            DropSpaces(text) == text && Parsed(text) == [Attribute(item.name, item.value)] + Parsed(rest)
  {
    ItemIsRead(item, after);
    RestOfItem(ItemText(item), after, rest);
    OneAttribute(ItemText(item) + after, Attribute(item.name, item.value), rest);
  }

  lemma RestOfItem(item: string, after: string, rest: string)
    requires (if after == "" then rest == "" else after == "," + rest)
    requires item + after != "" && !IsSpace((item + after)[0])
    requires Length(item + after) == |item| + CommaAfter(after)
    ensures Rest(item + after) == rest
  {
    DropBoth(item, after, CommaAfter(after));
    assert after[CommaAfter(after)..] == rest;
  }

  lemma OneAttribute(text: string, attribute: Attribute, rest: string)
    requires text != "" && !IsSpace(text[0]) && First(text) == attribute && Rest(text) == rest
    ensures DropSpaces(text) == text && Parsed(text) == [attribute] + Parsed(rest)
  {
  }

  lemma OneSpace(s: string)
    ensures DropSpaces(" " + s) == DropSpaces(s)
  {
    assert (" " + s)[1..] == s;
  }

  /** In particular names and quoted values come back, whatever the values. */
  lemma QuotedListIsRead(attributes: seq<Attribute>)
    requires forall k :: 0 <= k < |attributes| ==> PlainName(attributes[k].name)
    ensures Parsed(Listed(AllQuoted(attributes))) == attributes
  {
    AllQuotedAttributes(attributes);
    ListIsRead(AllQuoted(attributes));
  }

  function AllQuoted(attributes: seq<Attribute>): (items: seq<Item>)
    ensures |items| == |attributes|
    ensures forall k :: 0 <= k < |items| ==> items[k] == Quoted(attributes[k].name, attributes[k].value)
  {
    if attributes == [] then [] else [Quoted(attributes[0].name, attributes[0].value)] + AllQuoted(attributes[1..])
  }

  lemma {:induction false} AllQuotedAttributes(attributes: seq<Attribute>)
    ensures Attributes(AllQuoted(attributes)) == attributes
    decreases |attributes|
  {
    if attributes != [] {
      AllQuotedAttributes(attributes[1..]);
      assert AllQuoted(attributes)[1..] == AllQuoted(attributes[1..]);
      assert Attributes(AllQuoted(attributes)) == [attributes[0]] + attributes[1..];
    }
  }
}
