/** The PHP string built-ins the resource engine relies on, written out:
    the path pattern `^/\S+$`, urlencode, str_replace, the placeholder scan
    `preg_match_all('/\{(\S+?)\}/', ...)` and explode on ','. */
module PhpStrings {
  import opened Failures

  /** Whitespace as PCRE's \s reads it outside UTF mode: tab, line feed,
      vertical tab, form feed, carriage return and space. */
  predicate IsSpace(c: char)
  {
    c == ' ' || c == '\t' || c == '\n' || c == '\r' || c as int == 11 || c as int == 12
  }

  /** `preg_match('/^\/[\S]+$/', s) === 1`: a '/', then one or more
      non-space characters up to the end. PCRE's `$` also matches just
      before a final line feed, so one trailing '\n' is accepted too. */
  predicate MatchesPathPattern(s: string)
    ensures MatchesPathPattern(s) ==> |s| >= 2 && s[0] == '/'
    ensures MatchesPathPattern(s) ==> forall i :: 1 <= i < |s| - 1 ==> !IsSpace(s[i])
    ensures MatchesPathPattern(s) ==> ' ' !in s && '\t' !in s && '\r' !in s
    ensures (|s| >= 2 && s[0] == '/' && forall i :: 1 <= i < |s| ==> !IsSpace(s[i])) ==> MatchesPathPattern(s)
    ensures MatchesPathPattern(s) && IsSpace(s[|s| - 1]) ==> s[|s| - 1] == '\n'
    ensures (|s| >= 3 && s[0] == '/' && s[|s| - 1] == '\n' && forall i :: 1 <= i < |s| - 1 ==> !IsSpace(s[i])) ==>
              MatchesPathPattern(s)
  {
    var t := if |s| > 0 && s[|s| - 1] == '\n' then s[..|s| - 1] else s;
    |t| >= 2 && t[0] == '/' && forall i :: 1 <= i < |t| ==> !IsSpace(t[i])
  }

  // ---------------------------------------------------------------------
  // urlencode

  type Byte = b: int | 0 <= b < 256

  /** The UTF-8 encoding of one character: PHP strings are byte strings and
      a Dafny string stands for its UTF-8 bytes. */
  function Utf8(c: char): (bs: seq<Byte>)
    ensures 1 <= |bs| <= 4
    ensures (c as int < 128) <==> (|bs| == 1 && bs[0] == c as int)
    ensures c as int >= 128 ==> forall i :: 0 <= i < |bs| ==> bs[i] >= 128
  {
    var n := c as int;
    if n < 0x80 then [n]
    else if n < 0x800 then [0xC0 + n / 64, 0x80 + n % 64]
    else if n < 0x10000 then [0xE0 + n / 4096, 0x80 + (n / 64) % 64, 0x80 + n % 64]
    else [0xF0 + n / 262144, 0x80 + (n / 4096) % 64, 0x80 + (n / 64) % 64, 0x80 + n % 64]
  }

  function Utf8String(s: string): (bs: seq<Byte>)
    ensures |bs| >= |s|
  {
    if s == [] then [] else Utf8(s[0]) + Utf8String(s[1..])
  }

  /** The bytes urlencode leaves alone: ASCII letters, digits, '-', '_' and '.'. */
  predicate IsUnreserved(b: int)
  {
    ('0' as int <= b <= '9' as int) || ('A' as int <= b <= 'Z' as int) || ('a' as int <= b <= 'z' as int)
    || b == '-' as int || b == '_' as int || b == '.' as int
  }

  /** Characters that can appear in urlencode's output. */
  predicate IsEncodedChar(c: char)
  {
    IsUnreserved(c as int) || c == '+' || c == '%'
  }

  /** Upper-case hexadecimal digit, as urlencode writes it. */
  function HexDigit(d: int): (c: char)
    requires 0 <= d < 16
    ensures IsUnreserved(c as int)
  {
    if d < 10 then ('0' as int + d) as char else ('A' as int + d - 10) as char
  }

  function EncodeByte(b: Byte): (r: string)
    ensures forall c :: c in r ==> IsEncodedChar(c)
  {
    if IsUnreserved(b) then [b as char]
    else if b == 32 then "+"
    else ['%', HexDigit(b / 16), HexDigit(b % 16)]
  }

  function EncodeBytes(bs: seq<Byte>): (r: string)
    ensures forall c :: c in r ==> IsEncodedChar(c)
  {
    if bs == [] then [] else EncodeByte(bs[0]) + EncodeBytes(bs[1..])
  }

  /** PHP's urlencode (form encoding: a space becomes '+'). */
  function UrlEncode(s: string): (r: string)
    ensures forall c :: c in r ==> IsEncodedChar(c)
  {
    EncodeBytes(Utf8String(s))
  }

  /** urlencode's output holds no brace, no space and no '/'; a value put into
      a path cannot open a new placeholder or add a path segment. */
  lemma UrlEncodeIsInert(s: string)
    ensures forall c :: c in UrlEncode(s) ==> c != '{' && c != '}' && c != '/' && !IsSpace(c)
  {
  }

  function HexValue(c: char): Option<int>
  {
    if '0' <= c <= '9' then Some(c as int - '0' as int)
    else if 'A' <= c <= 'F' then Some(c as int - 'A' as int + 10)
    else if 'a' <= c <= 'f' then Some(c as int - 'a' as int + 10)
    else None
  }

  function Prepend(b: Byte, rest: Option<seq<Byte>>): Option<seq<Byte>>
  {
    match rest
    case Some(bs) => Some([b] + bs)
    case None => None
  }

  /** urldecode, to the bytes: '+' is a space, '%' and two hexadecimal digits
      a byte, any other character below 256 itself. */
  function DecodeBytes(s: string): Option<seq<Byte>>
    decreases |s|
  {
    if s == [] then Some([])
    else if s[0] == '+' then Prepend(32, DecodeBytes(s[1..]))
    else if s[0] == '%' && |s| >= 3 && HexValue(s[1]).Some? && HexValue(s[2]).Some? then
      Prepend(16 * HexValue(s[1]).value + HexValue(s[2]).value, DecodeBytes(s[3..]))
    else if s[0] as int < 256 then Prepend(s[0] as int, DecodeBytes(s[1..]))
    else None
  }

  lemma DecodeEncodedByte(b: Byte, rest: string)
    ensures DecodeBytes(EncodeByte(b) + rest) == Prepend(b, DecodeBytes(rest))
  {
    var s := EncodeByte(b) + rest;
    if IsUnreserved(b) {
      assert s[0] == b as char && s[1..] == rest;
    } else if b == 32 {
      assert s[0] == '+' && s[1..] == rest;
    } else {
      assert s[0] == '%' && s[1] == HexDigit(b / 16) && s[2] == HexDigit(b % 16) && s[3..] == rest;
    }
  }

  /** urlencode loses nothing: decoding its output gives back the bytes. */
  lemma {:induction false} DecodeEncodeBytes(bs: seq<Byte>)
    ensures DecodeBytes(EncodeBytes(bs)) == Some(bs)
  {
    if bs != [] {
      DecodeEncodeBytes(bs[1..]);
      DecodeEncodedByte(bs[0], EncodeBytes(bs[1..]));
      assert [bs[0]] + bs[1..] == bs;
    }
  }

  lemma UrlEncodeRoundTrip(s: string)
    ensures DecodeBytes(UrlEncode(s)) == Some(Utf8String(s))
  {
    DecodeEncodeBytes(Utf8String(s));
  }

  /** A string of unreserved ASCII characters and spaces. */
  predicate IsPlainText(s: string)
  {
    forall c :: c in s ==> IsUnreserved(c as int) || c == ' '
  }

  /** The string with every space turned into '+'. */
  function SpacesToPlus(s: string): (r: string)
    ensures |r| == |s|
    ensures forall i :: 0 <= i < |s| ==> r[i] == if s[i] == ' ' then '+' else s[i]
  {
    if s == [] then [] else [if s[0] == ' ' then '+' else s[0]] + SpacesToPlus(s[1..])
  }

  /** On unreserved characters and spaces urlencode only turns each space into '+'. */
  lemma {:induction false} UrlEncodePlainText(s: string)
    requires IsPlainText(s)
    ensures UrlEncode(s) == SpacesToPlus(s)
  {
    if s != [] {
      assert forall c :: c in s[1..] ==> c in s;
      UrlEncodePlainText(s[1..]);
      assert s[0] in s;
      assert Utf8String(s) == [s[0] as int] + Utf8String(s[1..]);
    }
  }

  // ---------------------------------------------------------------------
  // str_replace

  /** `str_replace($search, $replace, $subject)` for one search string:
      every occurrence, found left to right without overlap, is replaced.
      An empty search string leaves the subject unchanged. */
  function StrReplace(search: string, replace: string, subject: string): (r: string)
    ensures |search| == 0 ==> r == subject
    ensures replace == search ==> r == subject
    ensures |replace| == |search| ==> |r| == |subject|
    decreases |subject|
  {
    if |search| == 0 || |subject| < |search| then subject
    else if subject[..|search|] == search then
      assert subject == search + subject[|search|..];
      replace + StrReplace(search, replace, subject[|search|..])
    else
      assert subject == [subject[0]] + subject[1..];
      [subject[0]] + StrReplace(search, replace, subject[1..])
  }

  predicate OccursAt(search: string, subject: string, i: nat)
  {
    i + |search| <= |subject| && subject[i..i + |search|] == search
  }

  /** A subject that does not contain the search string comes back as it is. */
  lemma {:induction false} StrReplaceAbsent(search: string, replace: string, subject: string)
    requires forall i: nat :: !OccursAt(search, subject, i)
    ensures StrReplace(search, replace, subject) == subject
    decreases |subject|
  {
    if |search| > 0 && |subject| >= |search| {
      assert !OccursAt(search, subject, 0);
      forall i: nat ensures !OccursAt(search, subject[1..], i) {
        assert !OccursAt(search, subject, i + 1);
        if i + |search| <= |subject| - 1 {
          assert subject[1..][i..i + |search|] == subject[i + 1..i + 1 + |search|];
        }
      }
      StrReplaceAbsent(search, replace, subject[1..]);
    }
  }

  // ---------------------------------------------------------------------
  // preg_match_all('/\{(\S+?)\}/', ...)

  /** One match: the whole text `{name}` and the captured name. */
  datatype Placeholder = Placeholder(token: string, name: string)

  /** Where the lazy `\S+?` stops: the first '}' at or after `q`, provided no
      whitespace comes before it. */
  function CloseBrace(s: string, q: nat): (r: Option<nat>)
    decreases |s| - q
    ensures r.Some? ==> q <= r.value < |s| && s[r.value] == '}'
    ensures r.Some? ==> forall i :: q <= i < r.value ==> s[i] != '}' && !IsSpace(s[i])
  {
    if q >= |s| then None
    else if s[q] == '}' then Some(q)
    else if IsSpace(s[q]) then None
    else CloseBrace(s, q + 1)
  }

  /** The index of the '}' ending a match that starts at the front of `s`:
      '{', at least one non-space character (which may itself be '}'), then
      the nearest '}'. */
  function MatchEnd(s: string): (r: Option<nat>)
    requires s != []
    ensures r.Some? ==> 2 <= r.value < |s| && s[0] == '{' && s[r.value] == '}'
    ensures r.Some? ==> forall i :: 1 <= i < r.value ==> !IsSpace(s[i])
    ensures r.Some? ==> forall i :: 2 <= i < r.value ==> s[i] != '}'
  {
    if s[0] == '{' && |s| > 1 && !IsSpace(s[1]) then CloseBrace(s, 2) else None
  }

  /** The successive non-overlapping matches, left to right. */
  function Placeholders(s: string): (ms: seq<Placeholder>)
    decreases |s|
    ensures forall m :: m in ms ==> m.token == "{" + m.name + "}" && |m.name| >= 1
    ensures forall m :: m in ms ==> forall c :: c in m.name ==> !IsSpace(c)
  {
    if s == [] then []
    else match MatchEnd(s)
      case Some(q) =>
        assert s[..q + 1] == "{" + s[1..q] + "}";
        [Placeholder(s[..q + 1], s[1..q])] + Placeholders(s[q + 1..])
      case None => Placeholders(s[1..])
  }

  // ---------------------------------------------------------------------
  // explode(',', ...)

  /** `explode(',', s)`: the pieces between commas, in order; "" gives [""]. */
  function Explode(s: string): (parts: seq<string>)
    ensures |parts| >= 1
    ensures forall i :: 0 <= i < |parts| ==> ',' !in parts[i]
  {
    if s == [] then [""]
    else
      var rest := Explode(s[1..]);
      if s[0] == ',' then [""] + rest
      else [[s[0]] + rest[0]] + rest[1..]
  }

  /** `implode(',', parts)`. */
  function Implode(parts: seq<string>): string
    requires |parts| >= 1
  {
    if |parts| == 1 then parts[0] else parts[0] + "," + Implode(parts[1..])
  }

  /** Joining the pieces with ',' gives back the string that was split. */
  lemma {:induction false} ImplodeExplode(s: string)
    ensures Implode(Explode(s)) == s
  {
    if s != [] {
      ImplodeExplode(s[1..]);
      var rest := Explode(s[1..]);
      if s[0] != ',' {
        if |rest| == 1 {
          assert Implode(Explode(s)) == [s[0]] + rest[0];
        } else {
          assert Explode(s)[1..] == rest[1..];
          assert Implode(Explode(s)) == [s[0]] + rest[0] + "," + Implode(rest[1..]);
        }
      }
      assert [s[0]] + s[1..] == s;
    }
  }

  /** Splitting comma-free pieces joined by ',' gives back the same pieces,
      in the same order. */
  lemma {:induction false} ExplodeImplode(parts: seq<string>)
    requires |parts| >= 1
    requires forall i :: 0 <= i < |parts| ==> ',' !in parts[i]
    ensures Explode(Implode(parts)) == parts
    decreases |parts|, |parts[0]|
  {
    if parts[0] == [] {
      if |parts| == 1 {
      } else {
        ExplodeImplode(parts[1..]);
        assert Implode(parts) == [','] + Implode(parts[1..]);
        assert Implode(parts)[1..] == Implode(parts[1..]);
        assert [""] + parts[1..] == parts;
      }
    } else {
      var c := parts[0][0];
      var shorter := parts[0 := parts[0][1..]];
      assert c != ',' by { assert c in parts[0]; }
      forall i | 0 <= i < |shorter| ensures ',' !in shorter[i] {
        if i == 0 {
          assert forall x :: x in parts[0][1..] ==> x in parts[0];
        }
      }
      ExplodeImplode(shorter);
      assert shorter[1..] == parts[1..];
      assert Implode(parts) == [c] + Implode(shorter);
      assert Implode(parts)[1..] == Implode(shorter);
      assert [c] + shorter[0] == parts[0];
    }
  }
}
