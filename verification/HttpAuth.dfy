/** httpcommon.cc: HttpAuthenticate, the Basic and Digest schemes. */
module HttpAuth {
  import opened Bytes
  import opened HttpText
  import opened HttpAttributes
  import Base64
  import Md5
  import opened Sequences
  import opened Wrappers

  datatype HttpAuthResult = HAR_RESPONSE | HAR_IGNORE | HAR_CREDENTIALS | HAR_ERROR

  function AsBytes(s: string): (b: seq<Byte>)
    ensures |b| == |s|
  {
    seq(|s|, k requires 0 <= k < |s| => s[k] as int % 256)
  }

  // What is left of a string that is handed on as a C string.
  function CString(s: string): string { s[..IndexOf(s, '\0')] }

  const HEX_DIGITS: string := "0123456789abcdef"

  function HexDigits(b: seq<Byte>): string {
    if b == [] then "" else [HEX_DIGITS[b[0] / 16], HEX_DIGITS[b[0] % 16]] + HexDigits(b[1..])
  }

  // stringdigest.cc's MD5.
  function MD5(s: string): string { HexDigits(Md5.Digest(AsBytes(s))) }

  lemma {:induction false} HexDigitsArePlain(b: seq<Byte>)
    ensures Escaped(HexDigits(b)) == HexDigits(b)
    decreases |b|
  {
    if b != [] {
      HexDigitsArePlain(b[1..]);
      TwoPlain(HEX_DIGITS[b[0] / 16], HEX_DIGITS[b[0] % 16], HexDigits(b[1..]));
    }
  }

  predicate SmallDigit(c: char, v: nat) { DigitValue(c) == v && ('0' <= c <= '9' || 'a' <= c <= 'f') }

  lemma DigitIsSmall(v: nat)
    requires v < 16
    ensures SmallDigit(HEX_DIGITS[v], v)
  {
  }

  // Every byte is two hexadecimal digits, in small letters.
  lemma {:induction false} HexDigitsAt(b: seq<Byte>, k: nat)
    requires k < |b|
    ensures var h := HexDigits(b);
            |h| == 2 * |b| && SmallDigit(h[2 * k], b[k] / 16) && SmallDigit(h[2 * k + 1], b[k] % 16)
    decreases |b|
  {
    hide SmallDigit;
    var h, rest := HexDigits(b), HexDigits(b[1..]);
    DigitIsSmall(b[0] / 16);
    DigitIsSmall(b[0] % 16);
    assert h[2..] == rest;
    if |b| > 1 {
      HexDigitsAt(b[1..], if k > 0 then k - 1 else 0);
      if k > 0 { assert h[2 * k] == rest[2 * (k - 1)] && h[2 * k + 1] == rest[2 * (k - 1) + 1]; }
    }
  }

  lemma TwoPlain(c: char, d: char, rest: string)
    requires EscapedChar(c) == [c] && EscapedChar(d) == [d] && Escaped(rest) == rest
    ensures Escaped([c, d] + rest) == [c, d] + rest
  {
    hide EscapedChar;
    var s := [c, d] + rest;
    assert s[1..] == [d] + rest && s[1..][1..] == rest;
  }

  // HttpHasAttribute: the value of the first attribute of that name.
  function Lookup(args: seq<Attribute>, name: string): (v: Option<string>)
    ensures v.Some? <==> exists k :: 0 <= k < |args| && args[k].name == name
  {
    if args == [] then None
    else if args[0].name == name then Some(args[0].value)
    else
      var v := Lookup(args[1..], name);
      assert forall k :: 1 <= k < |args| ==> args[k] == args[1..][k - 1];
      v
  }

  method HttpHasAttribute(args: seq<Attribute>, name: string) returns (has: bool, value: string)
    ensures Lookup(args, name) == if has then Some(value) else None
    ensures !has ==> value == ""
  {
    var k := 0;
    while k < |args|
      invariant k <= |args| && Lookup(args[k..], name) == Lookup(args, name)
    {
      if args[k].name == name {
        return true, args[k].value;
      }
      assert args[k..][1..] == args[k + 1..];
      k := k + 1;
    }
    return false, "";
  }

  function OrEmpty(v: Option<string>): string { if v.Some? then v.value else "" }

  datatype Request = Request(verb: string, uri: string, username: string, password: string, time: string)

  // The user name and the password as they are hashed: C strings have been pasted together.
  function A1(r: Request, realm: string): string {
    CString(r.username + ":" + CString(realm) + ":" + r.password)
  }

  // The digest function is a parameter, of which only this is needed; MD5 is the one in use.
  ghost predicate PlainValued(md5: string -> string) { forall s :: Escaped(md5(s)) == md5(s) }

  lemma MD5IsPlain()
    ensures PlainValued(MD5)
  {
    forall s ensures Escaped(MD5(s)) == MD5(s) { HexDigitsArePlain(Md5.Digest(AsBytes(s))); }
  }

  // What is hashed last.
  function DigestSource(md5: string -> string, r: Request, realm: string, nonce: string, hasQop: bool): string {
    var middle := if hasQop then nonce + ":00000001:" + md5(r.time) + ":auth" else nonce;
    md5(A1(r, realm)) + ":" + middle + ":" + md5(r.verb + ":" + r.uri)
  }

  /** Section 3.2.2 of RFC 2617. */
  function DigestOf(md5: string -> string, r: Request, args: seq<Attribute>): string {
    md5(DigestSource(md5, r, OrEmpty(Lookup(args, "realm")), OrEmpty(Lookup(args, "nonce")), Lookup(args, "qop").Some?))
  }

  /** What the response to a Digest challenge has to say. */
  function DigestItems(md5: string -> string, r: Request, args: seq<Attribute>): seq<Item> {
    Items(r, OrEmpty(Lookup(args, "realm")), OrEmpty(Lookup(args, "nonce")),
          if Lookup(args, "qop").Some? then Some(md5(r.time)) else None, DigestOf(md5, r, args), Lookup(args, "opaque"))
  }

  function Items(r: Request, realm: string, nonce: string, cnonce: Option<string>, digest: string,
      opaqueValue: Option<string>): seq<Item> {
    [Quoted("username", r.username)] + [Quoted("realm", realm)] + [Quoted("nonce", nonce)] + [Quoted("uri", r.uri)]
    + (if cnonce.Some? then [Token("qop", "auth")] + [Token("nc", "00000001")] + [Quoted("cnonce", cnonce.value)] else [])
    + [Quoted("response", digest)]
    + (if opaqueValue.Some? then [Quoted("opaque", opaqueValue.value)] else [])
  }

  // The parts with a colon between them.
  function Colons(parts: seq<string>): string {
    if parts == [] then "" else if |parts| == 1 then parts[0] else parts[0] + ":" + Colons(parts[1..])
  }

  lemma ColonAfter(first: string, parts: seq<string>)
    requires parts != []
    ensures Colons([first] + parts) == first + ":" + Colons(parts)
  {
    assert ([first] + parts)[1..] == parts;
  }

  lemma TwoColons(a: string, b: string)
    ensures Colons([a, b]) == a + ":" + b
  {
    ColonAfter(a, [b]);
    assert [a] + [b] == [a, b];
  }

  lemma ThreeColons(a: string, b: string, c: string)
    ensures Colons([a, b, c]) == a + ":" + b + ":" + c
  {
    ColonAfter(b, [c]);
    ColonAfter(a, [b, c]);
    assert [a] + [b, c] == [a, b, c] && [b] + [c] == [b, c];
  }

  lemma SixColons(a: string, b: string, c: string, d: string, e: string, f: string)
    ensures Colons([a, b, c, d, e, f]) == a + ":" + (b + ":" + c + ":" + d + ":" + e) + ":" + f
  {
    hide Colons;
    ThreeColons(d, e, f);
    ColonAfter(c, [d, e, f]);
    ColonAfter(b, [c, d, e, f]);
    ColonAfter(a, [b, c, d, e, f]);
    assert [a] + [b, c, d, e, f] == [a, b, c, d, e, f];
    assert [b] + [c, d, e, f] == [b, c, d, e, f];
    assert [c] + [d, e, f] == [c, d, e, f];
  }

  function Value(args: seq<Attribute>, name: string): string { OrEmpty(Lookup(args, name)) }

  /** The request-digest of section 3.2.2 of RFC 2617, as a server works it out from the response
      that it has read, the password that it knows and the request that has come in. */
  ghost function RequestDigest(md5: string -> string, args: seq<Attribute>, password: string, verb: string): string {
    var a1 := Colons([Value(args, "username"), Value(args, "realm"), password]);
    var a2 := Colons([verb, Value(args, "uri")]);
    if Lookup(args, "qop").Some? then
      md5(Colons([md5(a1), Value(args, "nonce"), Value(args, "nc"), Value(args, "cnonce"), Value(args, "qop"), md5(a2)]))
    else
      md5(Colons([md5(a1), Value(args, "nonce"), md5(a2)]))
  }

  lemma {:induction false} LookupAt(args: seq<Attribute>, k: nat)
    requires k < |args| && forall j :: 0 <= j < k ==> args[j].name != args[k].name
    ensures Lookup(args, args[k].name) == Some(args[k].value)
  {
    if k > 0 {
      assert forall j :: 0 <= j < k ==> args[1..][j] == args[j + 1];
      LookupAt(args[1..], k - 1);
    }
  }

  lemma {:induction false} AttributeAt(items: seq<Item>, k: nat)
    requires k < |items|
    ensures |Attributes(items)| == |items| && Attributes(items)[k] == Attribute(items[k].name, items[k].value)
  {
    if k > 0 {
      AttributeAt(items[1..], k - 1);
    } else if |items| > 1 {
      AttributeAt(items[1..], 0);
    }
  }

  // The attributes that the server reads, with the scheme in front.
  function Sent(scheme: string, items: seq<Item>): seq<Attribute> { [Attribute(scheme, "")] + Attributes(items) }

  lemma SentAt(scheme: string, items: seq<Item>, k: nat)
    requires k < |items| && scheme != items[k].name && forall j :: 0 <= j < k ==> items[j].name != items[k].name
    ensures Lookup(Sent(scheme, items), items[k].name) == Some(items[k].value)
  {
    hide Attributes, Lookup;
    var sent := Sent(scheme, items);
    forall j | 0 <= j <= k
      ensures j < |Attributes(items)| && sent[j + 1] == Attribute(items[j].name, items[j].value)
    {
      AttributeAt(items, j);
    }
    forall j | 0 <= j < k + 1
      ensures sent[j].name != items[k].name
    {
      if j > 0 { assert sent[j - 1 + 1].name == items[j - 1].name; }
    }
    LookupAt(sent, k + 1);
  }

  lemma {:induction false} NotSent(scheme: string, items: seq<Item>, name: string)
    requires scheme != name && forall item :: item in items ==> item.name != name
    ensures Lookup(Sent(scheme, items), name) == None
  {
    hide Attributes;
    var sent := Sent(scheme, items);
    forall k | 0 <= k < |sent|
      ensures sent[k].name != name
    {
      if items == [] {
        NoAttributes(items);
      } else {
        AttributeAt(items, 0);
        if k > 0 { AttributeAt(items, k - 1); }
      }
    }
  }

  lemma NoAttributes(items: seq<Item>)
    requires items == []
    ensures Attributes(items) == []
  {
  }

  // The items of a response that names a qop.
  lemma ItemsWithQop(r: Request, realm: string, nonce: string, cnonce: string, digest: string, more: Option<string>)
    ensures var items := Items(r, realm, nonce, Some(cnonce), digest, more);
            && |items| >= 8 && items[0] == Quoted("username", r.username) && items[1] == Quoted("realm", realm)
            && items[2] == Quoted("nonce", nonce) && items[3] == Quoted("uri", r.uri)
            && items[4] == Token("qop", "auth") && items[5] == Token("nc", "00000001")
            && items[6] == Quoted("cnonce", cnonce) && items[7] == Quoted("response", digest)
  {
  }

  lemma ItemsWithoutQop(r: Request, realm: string, nonce: string, digest: string, more: Option<string>)
    ensures var items := Items(r, realm, nonce, None, digest, more);
            && |items| >= 5 && items[0] == Quoted("username", r.username) && items[1] == Quoted("realm", realm)
            && items[2] == Quoted("nonce", nonce) && items[3] == Quoted("uri", r.uri)
            && items[4] == Quoted("response", digest)
            && forall item :: item in items ==> item.name != "qop"
  {
  }

  lemma CutAtNul(s: string)
    ensures CString(s) == s <==> '\0' !in s
    ensures '\0' in s ==> |CString(s)| < |s|
  {
    IndexOfIsFirst(s, '\0');
  }

  // A NUL in any of the three cuts the text that is hashed.
  lemma A1IsWhole(r: Request, realm: string)
    ensures A1(r, realm) == r.username + ":" + realm + ":" + r.password <==>
              '\0' !in r.username && '\0' !in realm && '\0' !in r.password
  {
    hide CString;
    var whole := r.username + ":" + realm + ":" + r.password;
    var pasted := r.username + ":" + CString(realm) + ":" + r.password;
    CutAtNul(realm);
    CutAtNul(pasted);
    assert '\0' in pasted <==> '\0' in r.username || '\0' in CString(realm) || '\0' in r.password;
    if '\0' in realm { assert |A1(r, realm)| <= |pasted| < |whole|; }
  }

  lemma DigestIsNoItem(scheme: string)
    requires SameIgnoringCase(scheme, "digest")
    ensures scheme !in ["username", "realm", "nonce", "uri", "qop", "nc", "cnonce", "response"]
  {
    assert |scheme| == 6 && (scheme[0] == 'd' || scheme[0] == 'D');
  }

  lemma RecomputedWithQop(md5: string -> string, sent: seq<Attribute>, r: Request, realm: string, nonce: string)
    requires '\0' !in r.username && '\0' !in realm && '\0' !in r.password
    requires Value(sent, "username") == r.username && Value(sent, "realm") == realm && Value(sent, "nonce") == nonce
    requires Value(sent, "uri") == r.uri && Lookup(sent, "qop") == Some("auth") && Value(sent, "nc") == "00000001"
    requires Value(sent, "cnonce") == md5(r.time)
    ensures RequestDigest(md5, sent, r.password, r.verb) == md5(DigestSource(md5, r, realm, nonce, true))
  {
    hide Lookup, Colons, A1;
    A1IsWhole(r, realm);
    ThreeColons(r.username, realm, r.password);
    TwoColons(r.verb, r.uri);
    SixColons(md5(A1(r, realm)), nonce, "00000001", md5(r.time), "auth", md5(r.verb + ":" + r.uri));
    Middle(nonce, md5(r.time));
  }

  lemma Middle(nonce: string, cnonce: string)
    ensures nonce + ":" + "00000001" + ":" + cnonce + ":" + "auth" == nonce + ":00000001:" + cnonce + ":auth"
  {
  }

  lemma RecomputedWithoutQop(md5: string -> string, sent: seq<Attribute>, r: Request, realm: string, nonce: string)
    requires '\0' !in r.username && '\0' !in realm && '\0' !in r.password
    requires Value(sent, "username") == r.username && Value(sent, "realm") == realm && Value(sent, "nonce") == nonce
    requires Value(sent, "uri") == r.uri && Lookup(sent, "qop") == None
    ensures RequestDigest(md5, sent, r.password, r.verb) == md5(DigestSource(md5, r, realm, nonce, false))
  {
    hide Lookup, Colons, A1;
    A1IsWhole(r, realm);
    ThreeColons(r.username, realm, r.password);
    TwoColons(r.verb, r.uri);
    ThreeColons(md5(A1(r, realm)), nonce, md5(r.verb + ":" + r.uri));
  }

  lemma AgreesWithQop(md5: string -> string, scheme: string, r: Request, realm: string, nonce: string, more: Option<string>)
    requires SameIgnoringCase(scheme, "digest")
    requires '\0' !in r.username && '\0' !in realm && '\0' !in r.password
    ensures var digest := md5(DigestSource(md5, r, realm, nonce, true));
            var sent := Sent(scheme, Items(r, realm, nonce, Some(md5(r.time)), digest, more));
            Lookup(sent, "response") == Some(digest) && RequestDigest(md5, sent, r.password, r.verb) == digest
  {
    hide Items, Sent, Lookup, DigestSource, SameIgnoringCase, RequestDigest;
    var digest := md5(DigestSource(md5, r, realm, nonce, true));
    var items := Items(r, realm, nonce, Some(md5(r.time)), digest, more);
    ItemsWithQop(r, realm, nonce, md5(r.time), digest, more);
    DigestIsNoItem(scheme);
    SentAt(scheme, items, 0);
    SentAt(scheme, items, 1);
    SentAt(scheme, items, 2);
    SentAt(scheme, items, 3);
    SentAt(scheme, items, 4);
    SentAt(scheme, items, 5);
    SentAt(scheme, items, 6);
    SentAt(scheme, items, 7);
    RecomputedWithQop(md5, Sent(scheme, items), r, realm, nonce);
  }

  lemma AgreesWithoutQop(md5: string -> string, scheme: string, r: Request, realm: string, nonce: string,
      more: Option<string>)
    requires SameIgnoringCase(scheme, "digest")
    requires '\0' !in r.username && '\0' !in realm && '\0' !in r.password
    ensures var digest := md5(DigestSource(md5, r, realm, nonce, false));
            var sent := Sent(scheme, Items(r, realm, nonce, None, digest, more));
            Lookup(sent, "response") == Some(digest) && RequestDigest(md5, sent, r.password, r.verb) == digest
  {
    hide Items, Sent, Lookup, DigestSource, SameIgnoringCase, RequestDigest;
    var digest := md5(DigestSource(md5, r, realm, nonce, false));
    var items := Items(r, realm, nonce, None, digest, more);
    ItemsWithoutQop(r, realm, nonce, digest, more);
    DigestIsNoItem(scheme);
    SentAt(scheme, items, 0);
    SentAt(scheme, items, 1);
    SentAt(scheme, items, 2);
    SentAt(scheme, items, 3);
    SentAt(scheme, items, 4);
    NotSent(scheme, items, "qop");
    RecomputedWithoutQop(md5, Sent(scheme, items), r, realm, nonce);
  }

  /** A server that recomputes the digest of section 3.2.2 of RFC 2617 from what it reads finds the
      digest that it was sent, provided that no NUL cuts the user name, the realm or the password. */
  lemma ServerAgrees(md5: string -> string, scheme: string, r: Request, args: seq<Attribute>)
    requires SameIgnoringCase(scheme, "digest")
    requires '\0' !in r.username && '\0' !in Value(args, "realm") && '\0' !in r.password
    ensures var sent := Sent(scheme, DigestItems(md5, r, args));
            Lookup(sent, "response") == Some(RequestDigest(md5, sent, r.password, r.verb))
  {
    hide Items, Sent, DigestSource, SameIgnoringCase, RequestDigest;
    var realm, nonce, more := Value(args, "realm"), Value(args, "nonce"), Lookup(args, "opaque");
    if Lookup(args, "qop").Some? {
      AgreesWithQop(md5, scheme, r, realm, nonce, more);
    } else {
      AgreesWithoutQop(md5, scheme, r, realm, nonce, more);
    }
  }

  lemma ListedMore(items: seq<Item>, item: Item)
    requires items != []
    ensures Listed(items + [item]) == Listed(items) + (", " + ItemText(item))
  {
    var text := ItemText(items[0]);
    assert (items + [item])[1..] == items[1..] + [item];
    FollowingMore(items[1..], item);
    Associative(text, Following(items[1..]), ", " + ItemText(item));
  }

  lemma {:induction false} FollowingMore(items: seq<Item>, item: Item)
    ensures Following(items + [item]) == Following(items) + (", " + ItemText(item))
    decreases |items|
  {
    var more := ", " + ItemText(item);
    if items == [] {
      assert [] + [item] == [item];
      FollowingOne(item);
    } else {
      var text, rest := ItemText(items[0]), Following(items[1..]);
      assert (items + [item])[1..] == items[1..] + [item];
      FollowingMore(items[1..], item);
      Associative(text, rest, more);
      Associative(" ", text + rest, more);
      Associative(",", " " + (text + rest), more);
    }
  }

  lemma FollowingOne(item: Item)
    ensures Following([item]) == ", " + ItemText(item)
  {
    var text := ItemText(item);
    assert [item][1..] == [] && Listed([item]) == text + Following([]);
    AfterComma(text);
  }

  lemma AfterComma(text: string)
    ensures "," + (" " + (text + "")) == ", " + text
  {
  }

  lemma SchemeIsPlain(scheme: string, name: string)
    requires SameIgnoringCase(scheme, name) && (name == "basic" || name == "digest")
    ensures scheme != "" && PlainName(scheme)
  {
    forall k | 0 <= k < |scheme| ensures !IsSpace(scheme[k]) && scheme[k] != '=' {
      assert Lower(scheme[k]) == Lower(name[k]) && 'a' <= name[k] <= 'z';
    }
  }

  /** The server's parser reads the scheme and then exactly the items of the response. */
  lemma DigestIsRead(scheme: string, items: seq<Item>)
    requires scheme != "" && PlainName(scheme) && forall k :: 0 <= k < |items| ==> Listable(items[k])
    ensures Parsed(scheme + (" " + Listed(items))) == [Attribute(scheme, "")] + Attributes(items)
  {
    var text, after := scheme + (" " + Listed(items)), " " + Listed(items);
    NameThenValue(scheme, after);
    assert after[0..] == after;
    DropBoth(scheme, after, 0);
    OneAttribute(text, Attribute(scheme, ""), after);
    OneSpace(Listed(items));
    ListIsRead(items);
  }

  /** The server decodes the credentials that were meant exactly when they hold no NUL. */
  lemma BasicIsDecoded(username: string, password: string)
    ensures var credentials := username + ":" + password;
            var d := Base64.Decode(Base64.DO_STRICT, Base64.Encoded(AsBytes(CString(credentials))));
            d.success && (d.bytes == AsBytes(credentials) <==> '\0' !in username && '\0' !in password)
  {
    hide Base64.Decode, Base64.Encoded;
    var credentials := username + ":" + password;
    Base64.DecodeOfEncoded(AsBytes(CString(credentials)));
    assert '\0' in credentials <==> '\0' in username || '\0' in password;
    var n := IndexOf(credentials, '\0');
    IndexOfIsFirst(credentials, '\0');
    if n == |credentials| {
      assert CString(credentials) == credentials;
    } else {
      assert credentials[n] == '\0';
    }
  }

  // The scheme of a challenge. One without anything in it leaves the name that was there before.
  function Scheme(challenge: string, before: string): string {
    if Parsed(challenge) == [] then before else Parsed(challenge)[0].name
  }

  predicate Known(scheme: string) { SameIgnoringCase(scheme, "basic") || SameIgnoringCase(scheme, "digest") }

  // Schemes other than these two are ignored.
  function Decision(scheme: string, r: Request, context: Option<string>): HttpAuthResult {
    if (context.Some? && context.value != scheme) || !Known(scheme) then HAR_IGNORE
    else if context.Some? || r.username == "" then HAR_CREDENTIALS
    else HAR_RESPONSE
  }

  /** The context is the scheme that has been tried. A response is given only to the first
      challenge, which is why every further one ends the attempt. */
  method HttpAuthenticate(md5: string -> string, challenge: string, r: Request, context: Option<string>, before: string)
    returns (result: HttpAuthResult, context': Option<string>, response: string, scheme: string)
    requires PlainValued(md5)
    ensures scheme == Scheme(challenge, before) && result == Decision(scheme, r, context)
    ensures context' == if result == HAR_RESPONSE then Some(scheme) else context
    ensures result == HAR_RESPONSE && SameIgnoringCase(scheme, "basic") ==>
              response == scheme + " " + Base64.Encoded(AsBytes(CString(r.username + ":" + r.password)))
    ensures result == HAR_RESPONSE && SameIgnoringCase(scheme, "digest") ==>
              Parsed(response) == [Attribute(scheme, "")] + Attributes(DigestItems(md5, r, Parsed(challenge)))
  {
    context', response, scheme := context, "", before;
    var args := HttpParseAttributes(challenge, []);
    assert args == Parsed(challenge);
    if |args| > 0 {
      scheme := args[0].name;
    }
    if context.Some? && context.value != scheme {
      return HAR_IGNORE, context, response, scheme;
    }
    if SameIgnoringCase(scheme, "basic") {
      if context.Some? || r.username == "" {
        return HAR_CREDENTIALS, context, response, scheme;
      }
      context' := Some(scheme);
      var token := Base64.EncodeFromArray(AsBytes(CString(r.username + ":" + r.password)));
      response := scheme + " " + token;
      return HAR_RESPONSE, context', response, scheme;
    }
    if SameIgnoringCase(scheme, "digest") {
      if context.Some? || r.username == "" {
        return HAR_CREDENTIALS, context, response, scheme;
      }
      context' := Some(scheme);
      response := DigestResponse(md5, scheme, r, args);
      return HAR_RESPONSE, context', response, scheme;
    }
    result := HAR_IGNORE;
  }

  method DigestResponse(md5: string -> string, scheme: string, r: Request,
      args: seq<Attribute>) returns (response: string)
    requires SameIgnoringCase(scheme, "digest") && PlainValued(md5)
    ensures Parsed(response) == [Attribute(scheme, "")] + Attributes(DigestItems(md5, r, args))
  {
    var _, realm := HttpHasAttribute(args, "realm");
    var _, nonce := HttpHasAttribute(args, "nonce");
    var hasQop, _ := HttpHasAttribute(args, "qop");
    var hasOpaque, opaqueValue := HttpHasAttribute(args, "opaque");
    var digest := Hash(md5, r, realm, nonce, hasQop);
    assert digest == DigestOf(md5, r, args);
    assert Escaped(digest) == digest;
    ghost var items;
    response, items := Compose(scheme, r, realm, nonce, if hasQop then Some(md5(r.time)) else None, digest,
                               if hasOpaque then Some(opaqueValue) else None);
    assert items == DigestItems(md5, r, args);
    ItemsAreListable(r, realm, nonce, if hasQop then Some(md5(r.time)) else None, digest, if hasOpaque then Some(opaqueValue) else None);
    SchemeIsPlain(scheme, "digest");
    DigestIsRead(scheme, items);
  }

  method Hash(md5: string -> string, r: Request, realm: string, nonce: string, hasQop: bool) returns (digest: string)
    ensures digest == md5(DigestSource(md5, r, realm, nonce, hasQop))
  {
    var ncount, middle := "00000001", nonce;
    if hasQop {
      var qop := "auth";
      middle := nonce + ":" + ncount + ":" + md5(r.time) + ":" + qop;
      assert middle == nonce + ":00000001:" + md5(r.time) + ":auth";
    }
    digest := md5(md5(A1(r, realm)) + ":" + middle + ":" + md5(r.verb + ":" + r.uri));
  }

  // The text so far lists some items.
  ghost predicate Lists(text: string, scheme: string, items: seq<Item>) {
    items != [] && text == scheme + (" " + Listed(items))
  }

  method Append(text: string, name: string, value: string, ghost scheme: string, ghost items: seq<Item>,
      ghost item: Item)
    returns (longer: string)
    requires Lists(text, scheme, items) && name == item.name && value == ValueText(item)
    ensures Lists(longer, scheme, items + [item])
  {
    longer := text + (", " + (name + ("=" + value)));
    ghost var more := ", " + ItemText(item);
    ListedMore(items, item);
    Associative(scheme, " " + Listed(items), more);
    Associative(" ", Listed(items), more);
  }

  method AppendQuoted(text: string, name: string, value: string, ghost scheme: string, ghost items: seq<Item>)
    returns (longer: string)
    requires Lists(text, scheme, items)
    ensures Lists(longer, scheme, items + [Quoted(name, value)])
  {
    var quoted := QuoteString(value);
    longer := Append(text, name, quoted, scheme, items, Quoted(name, value));
  }

  method ComposeStart(scheme: string, r: Request, realm: string, nonce: string) returns (text: string,
      ghost items: seq<Item>)
    ensures Lists(text, scheme, items)
    ensures items == [Quoted("username", r.username)] + [Quoted("realm", realm)] + [Quoted("nonce", nonce)] + [Quoted("uri", r.uri)]
  {
    var quoted := QuoteString(r.username);
    text := scheme + (" username=" + quoted);
    items := [Quoted("username", r.username)];
    assert " username=" + quoted == " " + (ItemText(items[0]) + Following(items[1..]));
    text := AppendQuoted(text, "realm", realm, scheme, items);
    items := items + [Quoted("realm", realm)];
    text := AppendQuoted(text, "nonce", nonce, scheme, items);
    items := items + [Quoted("nonce", nonce)];
    text := AppendQuoted(text, "uri", r.uri, scheme, items);
    items := items + [Quoted("uri", r.uri)];
  }

  method ComposeQop(before: string, cnonce: string, ghost scheme: string, ghost items: seq<Item>) returns (text: string)
    requires Lists(before, scheme, items)
    ensures Lists(text, scheme, items + ([Token("qop", "auth")] + [Token("nc", "00000001")] + [Quoted("cnonce", cnonce)]))
  {
    ghost var qop, nc, all := [Token("qop", "auth")], [Token("nc", "00000001")], items;
    text := Append(before, "qop", "auth", scheme, all, qop[0]);
    text := Append(text, "nc", "00000001", scheme, all + qop, nc[0]);
    text := AppendQuoted(text, "cnonce", cnonce, scheme, all + qop + nc);
    Associative(all, qop, nc);
    Associative(all, qop + nc, [Quoted("cnonce", cnonce)]);
  }

  method Compose(scheme: string, r: Request, realm: string, nonce: string, cnonce: Option<string>, digest: string,
                 opaqueValue: Option<string>) returns (text: string, ghost items: seq<Item>)
    requires Escaped(digest) == digest
    ensures items == Items(r, realm, nonce, cnonce, digest, opaqueValue) && Lists(text, scheme, items)
  {
    text, items := ComposeStart(scheme, r, realm, nonce);
    if cnonce.Some? {
      text := ComposeQop(text, cnonce.value, scheme, items);
      items := items + ([Token("qop", "auth")] + [Token("nc", "00000001")] + [Quoted("cnonce", cnonce.value)]);
    }
    text := Append(text, "response", "\"" + (digest + "\""), scheme, items, Quoted("response", digest));
    items := items + [Quoted("response", digest)];
    if opaqueValue.Some? {
      text := AppendQuoted(text, "opaque", opaqueValue.value, scheme, items);
      items := items + [Quoted("opaque", opaqueValue.value)];
    }
  }

  lemma ItemsAreListable(r: Request, realm: string, nonce: string, cnonce: Option<string>, digest: string,
      opaqueValue: Option<string>)
    ensures forall item :: item in Items(r, realm, nonce, cnonce, digest, opaqueValue) ==> Listable(item)
  {
  }
}
