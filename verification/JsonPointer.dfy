/** References within a document: URI fragments that are JSON Pointers (RFC 6901 sections 3 to 6,
    RFC 3986 section 2.1), beside the plain lookup of a definition by its name. */
module JsonPointer {
  import opened Base
  import opened WrittenNumbers
  import Utf8

  function Get(schema: Json, key: string): Option<Json> {
    if schema.Obj? && key in schema.vals then Some(schema.vals[key]) else None
  }

  // ----- percent-encoding -----

  function HexDigit(c: char): Option<nat> {
    if '0' <= c <= '9' then Some(c as int - '0' as int)
    else if 'A' <= c <= 'F' then Some(c as int - 'A' as int + 10)
    else if 'a' <= c <= 'f' then Some(c as int - 'a' as int + 10)
    else None
  }

  /** The bytes a fragment stands for. */
  function Bytes(s: string): Option<seq<byte>> {
    if s == "" then Some([])
    else if s[0] == '%' then
      if |s| < 3 || HexDigit(s[1]).None? || HexDigit(s[2]).None? then None
      else
        match Bytes(s[3..])
        case None => None
        case Some(rest) => Some([HexByte(s[1], s[2])] + rest)
    else
      match Bytes(s[1..])
      case None => None
      case Some(rest) => Some(Utf8.EncodeChar(s[0]) + rest)
  }

  function HexByte(high: char, low: char): byte
    requires HexDigit(high).Some? && HexDigit(low).Some?
  {
    16 * HexDigit(high).value + HexDigit(low).value
  }

  /** The text whose UTF-8 form the bytes are. */
  ghost function TextOf(bytes: seq<byte>): Option<string> {
    if exists s :: Utf8.Encode(s) == bytes then
      var s :| Utf8.Encode(s) == bytes;
      Some(s)
    else None
  }

  lemma TextOfEncode(s: string)
    ensures TextOf(Utf8.Encode(s)) == Some(s)
  {
    var t := TextOf(Utf8.Encode(s)).value;
    assert Utf8.Encode(t) == Utf8.Encode(s);
    Utf8.DecodeEncode(s);
    Utf8.DecodeEncode(t);
  }

  // ----- pointers -----

  /** The reference tokens between the slashes. */
  function Tokens(s: string): (tokens: seq<string>)
    ensures tokens != []
  {
    if s == "" then [""]
    else if s[0] == '/' then [""] + Tokens(s[1..])
    else
      var rest := Tokens(s[1..]);
      [[s[0]] + rest[0]] + rest[1..]
  }

  /** A tilde stands for itself as ~0 and for a slash as ~1; anything else after it is an error. */
  function Unescape(token: string): Option<string> {
    if token == "" then Some("")
    else if token[0] == '~' then
      if |token| < 2 || token[1] !in {'0', '1'} then None
      else
        match Unescape(token[2..])
        case None => None
        case Some(rest) => Some([if token[1] == '0' then '~' else '/'] + rest)
    else
      match Unescape(token[1..])
      case None => None
      case Some(rest) => Some([token[0]] + rest)
  }

  /** An array index: digits without a leading zero. */
  function Index(token: string): Option<nat> {
    if token == "" || (|token| > 1 && token[0] == '0') then None else Digits(token, 0)
  }

  function Digits(token: string, value: nat): Option<nat>
    decreases |token|
  {
    if token == "" then Some(value)
    else if '0' <= token[0] <= '9' then Digits(token[1..], 10 * value + (token[0] as int - '0' as int))
    else None
  }

  function Member(j: Json, token: string): Option<Json> {
    if j.Arr? then
      match Index(token)
      case Some(i) => if i < |j.items| then Some(j.items[i]) else None
      case None => None
    else Get(j, token)
  }

  function Walk(j: Json, tokens: seq<string>): Option<Json> {
    if tokens == [] then Some(j)
    else
      match Unescape(tokens[0])
      case None => None
      case Some(token) =>
        match Member(j, token)
        case None => None
        case Some(child) => Walk(child, tokens[1..])
  }

  /** What a reference points to in its document; none for a reference to elsewhere or to an anchor. */
  ghost function Pointed(document: Json, reference: Json): Option<Json> {
    if !reference.Str? || reference.text == "" || reference.text[0] != '#' || Bytes(reference.text[1..]).None? then None
    else
      match TextOf(Bytes(reference.text[1..]).value)
      case None => None
      case Some(pointer) =>
        if pointer == "" then Some(document)
        else if pointer[0] == '/' then Walk(document, Tokens(pointer[1..]))
        else None
  }

  // ----- the lookup by name -----

  const PREFIX: string := "#/$defs/"

  /** The definition whose name is spelt out in the reference. */
  function Resolve(document: Json, reference: Json): Option<Json> {
    if reference.Str? && PREFIX <= reference.text && Get(document, "$defs").Some? then
      Get(Get(document, "$defs").value, reference.text[|PREFIX|..])
    else None
  }

  predicate Plain(name: string) {
    '/' !in name && '~' !in name && '%' !in name
  }

  /** A reference to a definition spells out a plain name. */
  predicate ReferenceRead(reference: Json) {
    reference.Str? && PREFIX <= reference.text ==> Plain(reference.text[|PREFIX|..])
  }

  lemma {:induction false} EncodeAppend(a: string, b: string)
    ensures Utf8.Encode(a + b) == Utf8.Encode(a) + Utf8.Encode(b)
  {
    if a == "" {
      assert a + b == b;
    } else {
      assert (a + b)[1..] == a[1..] + b;
      EncodeAppend(a[1..], b);
    }
  }

  lemma {:induction false} PlainBytes(s: string)
    requires '%' !in s
    ensures Bytes(s) == Some(Utf8.Encode(s))
  {
    if s != "" {
      assert s == [s[0]] + s[1..];
      PlainBytes(s[1..]);
    }
  }

  lemma {:induction false} PlainTokens(s: string)
    requires '/' !in s
    ensures Tokens(s) == [s]
  {
    if s != "" {
      assert s == [s[0]] + s[1..];
      PlainTokens(s[1..]);
    }
  }

  lemma {:induction false} PlainUnescape(s: string)
    requires '~' !in s
    ensures Unescape(s) == Some(s)
  {
    if s != "" {
      assert s == [s[0]] + s[1..];
      PlainUnescape(s[1..]);
    }
  }

  /** The first slash ends the first token. */
  lemma {:induction false} FirstToken(a: string, b: string)
    requires '/' !in a
    ensures Tokens(a + "/" + b) == [a] + Tokens(b)
  {
    if a == "" {
      assert a + "/" + b == "/" + b;
      assert ("/" + b)[1..] == b;
    } else {
      assert a == [a[0]] + a[1..];
      var s := a + "/" + b;
      assert s[0] == a[0] && s[1..] == a[1..] + "/" + b;
      FirstToken(a[1..], b);
    }
  }

  const DEFS: string := "$defs"

  /** The pointer of a reference to a definition starts at the definitions. */
  lemma DefinitionPointer(document: Json, name: string)
    ensures Bytes(name).None? ==> Pointed(document, Str(PREFIX + name)).None?
    ensures Bytes(name).Some? && TextOf(Bytes(name).value).None? ==> Pointed(document, Str(PREFIX + name)).None?
    ensures Bytes(name).Some? && TextOf(Bytes(name).value).Some? ==>
      Pointed(document, Str(PREFIX + name)) == Walk(document, [DEFS] + Tokens(TextOf(Bytes(name).value).value))
  {
    var path := "/$defs/" + name;
    assert (PREFIX + name)[1..] == path && (PREFIX + name)[0] == '#';
    PathBytes("/$defs/", name);
    if Bytes(name).Some? {
      var bytes := Bytes(name).value;
      PathText("/$defs/", bytes);
      if TextOf(bytes).Some? {
        var text := TextOf(bytes).value;
        assert ("/$defs/" + text)[1..] == DEFS + "/" + text;
        FirstToken(DEFS, text);
      }
    }
  }

  lemma {:induction false} PathBytes(a: string, b: string)
    requires '%' !in a
    ensures Bytes(a + b) == if Bytes(b).None? then None else Some(Utf8.Encode(a) + Bytes(b).value)
  {
    if a == "" {
      assert a + b == b;
      if Bytes(b).Some? {
        assert [] + Bytes(b).value == Bytes(b).value;
      }
    } else {
      assert a == [a[0]] + a[1..];
      assert a[0] != '%' && (a + b)[0] == a[0] && (a + b)[1..] == a[1..] + b;
      PathBytes(a[1..], b);
      if Bytes(b).Some? {
        Associate(Utf8.EncodeChar(a[0]), Utf8.Encode(a[1..]), Bytes(b).value);
      }
    }
  }

  lemma Associate(a: seq<byte>, b: seq<byte>, c: seq<byte>)
    ensures a + b + c == a + (b + c)
  {
  }

  /** Text before well-formed bytes; the ill-formed ones stay so behind ASCII text. */
  lemma PathText(a: string, bytes: seq<byte>)
    requires forall c :: c in a ==> c < '~'
    ensures TextOf(Utf8.Encode(a) + bytes) == if TextOf(bytes).None? then None else Some(a + TextOf(bytes).value)
  {
    if TextOf(bytes).Some? {
      var s := TextOf(bytes).value;
      EncodeAppend(a, s);
      TextOfEncode(a + s);
    } else if t :| Utf8.Encode(t) == Utf8.Encode(a) + bytes {
      AsciiPrefix(a, bytes, t);
      assert Utf8.Encode(t[|a|..]) == bytes;
    }
  }

  lemma {:induction false} AsciiPrefix(a: string, bytes: seq<byte>, t: string)
    requires (forall c :: c in a ==> c < '~') && Utf8.Encode(t) == Utf8.Encode(a) + bytes
    ensures |a| <= |t| && Utf8.Encode(t[|a|..]) == bytes
  {
    if a == "" {
      assert t[0..] == t;
    } else {
      assert a[0] in a;
      AsciiFirst(a, a[0] as int);
      assert Utf8.Encode(t)[0] == a[0] as int;
      assert t != "";
      AsciiFirst(t, a[0] as int);
      assert Utf8.Encode(t)[1..] == Utf8.Encode(t[1..]);
      assert (Utf8.Encode(a) + bytes)[1..] == Utf8.Encode(a)[1..] + bytes;
      assert forall c :: c in a[1..] ==> c in a;
      calc {
        Utf8.Encode(t[1..]);
        (Utf8.Encode(a) + bytes)[1..];
        Utf8.Encode(a[1..]) + bytes;
      }
      AsciiPrefix(a[1..], bytes, t[1..]);
      assert t[1..][|a[1..]|..] == t[|a|..];
    }
  }

  /** A leading ASCII byte is a whole character. */
  lemma AsciiFirst(s: string, b: int)
    requires s != "" && b < 0x80 && (s[0] as int == b || Utf8.Encode(s)[0] == b)
    ensures Utf8.EncodeChar(s[0]) == [b] && Utf8.Encode(s)[0] == b && Utf8.Encode(s)[1..] == Utf8.Encode(s[1..])
  {
    assert Utf8.Encode(s)[0] == Utf8.EncodeChar(s[0])[0];
  }

  /** A plain name points to the definition of that name. */
  lemma PlainPointed(document: Json, name: string)
    requires Plain(name) && Resolve(document, Str(PREFIX + name)).Some?
    ensures Pointed(document, Str(PREFIX + name)) == Resolve(document, Str(PREFIX + name))
  {
    DefinitionPointer(document, name);
    PlainBytes(name);
    TextOfEncode(name);
    PlainTokens(name);
    PlainUnescape(name);
    PlainUnescape(DEFS);
    WalkTwo(document, name, name);
  }

  lemma WalkTwo(document: Json, first: string, name: string)
    requires Unescape(first) == Some(name)
    ensures Resolve(document, Str(PREFIX + name)).Some? ==>
      Walk(document, [DEFS] + [first]) == Resolve(document, Str(PREFIX + name))
  {
    PlainUnescape(DEFS);
    assert (PREFIX + name)[|PREFIX|..] == name;
    assert ([DEFS] + [first])[1..] == [first] && [first][1..] == [];
    hide Unescape, Index;
    if Resolve(document, Str(PREFIX + name)).Some? {
      var defs := Get(document, DEFS).value;
      assert Member(document, DEFS) == Some(defs);
      assert Walk(defs, [first]) == Get(defs, name);
    }
  }

  lemma ReferencePointed(document: Json, reference: Json)
    requires ReferenceRead(reference) && Resolve(document, reference).Some?
    ensures Pointed(document, reference) == Resolve(document, reference)
  {
    var name := reference.text[|PREFIX|..];
    assert reference.text == PREFIX + name;
    PlainPointed(document, name);
  }

  // ----- names that are not plain -----

  lemma {:induction false} EscapedShorter(token: string)
    requires Unescape(token).Some?
    ensures |Utf8.Encode(Unescape(token).value)| <= |Utf8.Encode(token)|
    ensures '~' in token ==> |Utf8.Encode(Unescape(token).value)| < |Utf8.Encode(token)|
  {
    if token != "" {
      var k := if token[0] == '~' then 2 else 1;
      assert token == token[..k] + token[k..];
      EscapedShorter(token[k..]);
      EncodeAppend(token[..k], token[k..]);
      if k == 2 {
        assert token[1..][1..] == token[2..];
        assert Utf8.Encode(token) == Utf8.EncodeChar(token[0]) + (Utf8.EncodeChar(token[1]) + Utf8.Encode(token[2..]));
      }
    }
  }

  lemma {:induction false} PercentShorter(s: string)
    requires Bytes(s).Some?
    ensures |Bytes(s).value| <= |Utf8.Encode(s)|
    ensures '%' in s ==> |Bytes(s).value| < |Utf8.Encode(s)|
  {
    if s != "" {
      if s[0] == '%' {
        PercentShorter(s[3..]);
        assert s == s[..3] + s[3..];
        assert s[1..][1..] == s[2..] && s[2..][1..] == s[3..];
      } else {
        assert s == [s[0]] + s[1..];
        PercentShorter(s[1..]);
      }
    }
  }

  lemma {:induction false} TokensShorter(s: string)
    ensures |Utf8.Encode(Tokens(s)[0])| <= |Utf8.Encode(s)|
    ensures '/' in s ==> |Utf8.Encode(Tokens(s)[0])| < |Utf8.Encode(s)|
  {
    if s != "" && s[0] != '/' {
      assert s == [s[0]] + s[1..];
      TokensShorter(s[1..]);
      var token := Tokens(s)[0];
      assert token[1..] == Tokens(s[1..])[0];
    }
  }

  /** A document with one definition. */
  function OneDefinition(name: string, schema: Json): Json {
    Obj([DEFS], map[DEFS := Obj([name], map[name := schema])])
  }

  lemma EscapedElsewhere(name: string)
    requires !Plain(name)
    ensures Resolve(OneDefinition(name, Bool(true)), Str(PREFIX + name)) == Some(Bool(true))
    ensures Pointed(OneDefinition(name, Bool(true)), Str(PREFIX + name)).None?
  {
    var document := OneDefinition(name, Bool(true));
    assert (PREFIX + name)[|PREFIX|..] == name;
    DefinitionPointer(document, name);
    if Bytes(name).Some? && TextOf(Bytes(name).value).Some? {
      var text := TextOf(Bytes(name).value).value;
      PercentShorter(name);
      TokensShorter(text);
      var first := Tokens(text)[0];
      PlainUnescape(DEFS);
      assert ([DEFS] + Tokens(text))[1..] == Tokens(text);
      if Unescape(first).Some? {
        EscapedShorter(first);
        NotItself(name, text, first);
      }
    }
  }

  lemma NotItself(name: string, text: string, first: string)
    requires !Plain(name) && Bytes(name).Some? && TextOf(Bytes(name).value) == Some(text)
    requires first == Tokens(text)[0] && Unescape(first).Some?
    requires |Bytes(name).value| <= |Utf8.Encode(name)| && ('%' in name ==> |Bytes(name).value| < |Utf8.Encode(name)|)
    requires |Utf8.Encode(first)| <= |Utf8.Encode(text)| && ('/' in text ==> |Utf8.Encode(first)| < |Utf8.Encode(text)|)
    requires |Utf8.Encode(Unescape(first).value)| <= |Utf8.Encode(first)|
    requires '~' in first ==> |Utf8.Encode(Unescape(first).value)| < |Utf8.Encode(first)|
    ensures Unescape(first).value != name
  {
    assert Utf8.Encode(text) == Bytes(name).value;
    if '%' !in name {
      PlainBytes(name);
      TextOfEncode(name);
      if '/' !in name {
        PlainTokens(name);
      }
    }
  }

  /** The lookup by name finds what the reference points to, in every document in which it finds
      anything, exactly when the name is plain. */
  lemma NameExact(name: string)
    ensures (forall document :: Resolve(document, Str(PREFIX + name)).Some? ==>
      Pointed(document, Str(PREFIX + name)) == Resolve(document, Str(PREFIX + name))) <==> Plain(name)
  {
    hide Pointed, Resolve;
    if Plain(name) {
      forall document | Resolve(document, Str(PREFIX + name)).Some?
        ensures Pointed(document, Str(PREFIX + name)) == Resolve(document, Str(PREFIX + name))
      {
        PlainPointed(document, name);
      }
    } else {
      EscapedElsewhere(name);
      assert Resolve(OneDefinition(name, Bool(true)), Str(PREFIX + name)).Some?;
    }
  }

  // ----- an escaped name -----

  const SLASHED: string := "a/b"
  const ESCAPED: string := "a~1b"

  function TwoDefinitions(slashed: Json, escaped: Json): Json {
    Obj([DEFS], map[DEFS := Obj([SLASHED, ESCAPED], map[SLASHED := slashed, ESCAPED := escaped])])
  }

  /** The reference to a~1b points to a/b; the lookup by name takes a~1b itself. */
  lemma EscapedNameMisread(slashed: Json, escaped: Json)
    ensures
      var document, reference := TwoDefinitions(slashed, escaped), Str(PREFIX + ESCAPED);
      Pointed(document, reference) == Some(slashed) && Resolve(document, reference) == Some(escaped)
  {
    var document := TwoDefinitions(slashed, escaped);
    TwoLookups(slashed, escaped);
    UnescapedName();
    hide Unescape, TwoDefinitions, Walk, Resolve;
    DefinitionPointer(document, ESCAPED);
    PlainBytes(ESCAPED);
    TextOfEncode(ESCAPED);
    PlainTokens(ESCAPED);
    WalkTwo(document, ESCAPED, SLASHED);
  }

  lemma TwoLookups(slashed: Json, escaped: Json)
    ensures Resolve(TwoDefinitions(slashed, escaped), Str(PREFIX + ESCAPED)) == Some(escaped)
    ensures Resolve(TwoDefinitions(slashed, escaped), Str(PREFIX + SLASHED)) == Some(slashed)
  {
    assert (PREFIX + ESCAPED)[|PREFIX|..] == ESCAPED;
    assert (PREFIX + SLASHED)[|PREFIX|..] == SLASHED;
  }

  lemma UnescapedName()
    ensures Unescape(ESCAPED) == Some(SLASHED)
  {
    assert ESCAPED[1..] == "~1b" && "~1b"[2..] == "b" && "b"[1..] == "";
    assert ['b'] + "" == "b" && ['/'] + "b" == "/b" && ['a'] + "/b" == SLASHED;
    assert Unescape("") == Some("");
    assert Unescape("b") == Some(['b'] + "");
    assert Unescape("~1b") == Some(['/'] + "b");
  }

  // ----- every name has a reference -----

  /** The name as a reference token: ~0 for a tilde, ~1 for a slash. */
  function Escape(name: string): string {
    if name == "" then ""
    else (if name[0] == '~' then "~0" else if name[0] == '/' then "~1" else [name[0]]) + Escape(name[1..])
  }

  /** The token within a fragment: %25 for a percent sign. */
  function Quote(token: string): string {
    if token == "" then "" else (if token[0] == '%' then "%25" else [token[0]]) + Quote(token[1..])
  }

  lemma {:induction false} EscapedToken(name: string)
    ensures '/' !in Escape(name) && Unescape(Escape(name)) == Some(name)
  {
    if name != "" {
      EscapedToken(name[1..]);
      var rest := Escape(name[1..]);
      assert name == [name[0]] + name[1..];
      if name[0] == '~' {
        assert ("~0" + rest)[2..] == rest;
      } else if name[0] == '/' {
        assert ("~1" + rest)[2..] == rest;
      } else {
        assert ([name[0]] + rest)[1..] == rest;
      }
    }
  }

  lemma {:induction false} QuotedBytes(token: string)
    ensures Bytes(Quote(token)) == Some(Utf8.Encode(token))
  {
    if token != "" {
      QuotedBytes(token[1..]);
      var rest := Quote(token[1..]);
      if token[0] == '%' {
        assert ("%25" + rest)[3..] == rest;
        assert Utf8.EncodeChar('%') == [0x25];
      } else {
        assert ([token[0]] + rest)[1..] == rest;
      }
    }
  }

  /** The reference to a name, escaped and quoted, points to the definition of that name, whatever the
      name. */
  lemma NamePointed(document: Json, name: string)
    requires Get(document, "$defs").Some? && Get(document, "$defs").value.Obj?
    ensures Pointed(document, Str("#/$defs/" + Quote(Escape(name)))) == Get(Get(document, "$defs").value, name)
  {
    var token := Escape(name);
    EscapedToken(name);
    QuotedBytes(token);
    TextOfEncode(token);
    PlainTokens(token);
    DefinitionPointer(document, Quote(token));
    PlainUnescape(DEFS);
    assert ([DEFS] + [token])[1..] == [token] && [token][1..] == [];
    hide Unescape, Index, Escape, Quote, Bytes, Tokens, Pointed, TextOf;
    var defs := Get(document, DEFS).value;
    assert Member(document, DEFS) == Some(defs);
    assert Walk(defs, [token]) == Get(defs, name);
  }
}
