/** What `getResourcePath` computes, stated without str_replace: a path
    written as literal text and `{name}` holes resolves to the literal text
    with every hole replaced by the urlencoded attribute, or to the error of
    the first unusable attribute. */
module PathTemplate {
  import opened Failures
  import opened PhpValues
  import opened PhpStrings
  import opened PathResolver

  /** A piece of an instance path: literal text or a `{name}` hole. */
  datatype Piece = Lit(text: string) | Hole(name: string)

  function PieceText(p: Piece): string
  {
    match p
    case Lit(t) => t
    case Hole(n) => "{" + n + "}"
  }

  /** The path as it is declared in a resource class. */
  function Text(ps: seq<Piece>): string
  {
    if ps == [] then "" else PieceText(ps[0]) + Text(ps[1..])
  }

  /** A hole name: non-empty, no brace and no whitespace. */
  predicate SimpleName(n: string)
  {
    |n| >= 1 && forall c :: c in n ==> c != '{' && c != '}' && !IsSpace(c)
  }

  /** Literal text opens no placeholder, and hole names are simple: how every
      resource path of the SDK is written (`/{id}`, `/{id}/transactions`). */
  predicate SimpleTemplate(ps: seq<Piece>)
  {
    forall i :: 0 <= i < |ps| ==>
      (ps[i].Lit? ==> '{' !in ps[i].text) && (ps[i].Hole? ==> SimpleName(ps[i].name))
  }

  /** The matches a template's text should produce, in order. */
  function Holes(ps: seq<Piece>): seq<Placeholder>
  {
    if ps == [] then []
    else match ps[0]
      case Lit(_) => Holes(ps[1..])
      case Hole(n) => [Placeholder("{" + n + "}", n)] + Holes(ps[1..])
  }

  /** The template with each hole replaced by its encoded attribute. */
  function Expand(kind: string, attrs: Entries, ps: seq<Piece>): string
  {
    if ps == [] then ""
    else match ps[0]
      case Lit(t) => t + Expand(kind, attrs, ps[1..])
      case Hole(n) => Encoded(kind, attrs, n) + Expand(kind, attrs, ps[1..])
  }

  /** The reference resolution of a template. */
  function Render(kind: string, attrs: Entries, ps: seq<Piece>): Result<string>
  {
    match FirstFailure(kind, attrs, Holes(ps))
    case Some(e) => Err(e)
    case None => Ok(Expand(kind, attrs, ps))
  }

  // ---------------------------------------------------------------------
  // The placeholder scan finds exactly the holes.

  lemma {:induction false} CloseBraceFinds(s: string, q: nat, k: nat)
    requires q <= k < |s| && s[k] == '}'
    requires forall i :: q <= i < k ==> s[i] != '}' && !IsSpace(s[i])
    ensures CloseBrace(s, q) == Some(k)
    decreases k - q
  {
    if q < k {
      CloseBraceFinds(s, q + 1, k);
    }
  }

  lemma PlaceholdersHole(n: string, rest: string)
    requires SimpleName(n)
    ensures Placeholders("{" + n + "}" + rest) ==
            [Placeholder("{" + n + "}", n)] + Placeholders(rest)
  {
    var s := "{" + n + "}" + rest;
    var k := |n| + 1;
    assert s[1] == n[0] && n[0] in n;
    forall i | 2 <= i < k ensures s[i] != '}' && !IsSpace(s[i]) {
      assert s[i] == n[i - 1] && n[i - 1] in n;
    }
    CloseBraceFinds(s, 2, k);
    assert MatchEnd(s) == Some(k);
    assert s[..k + 1] == "{" + n + "}";
    assert s[1..k] == n;
    assert s[k + 1..] == rest;
  }

  lemma {:induction false} PlaceholdersLit(t: string, rest: string)
    requires '{' !in t
    ensures Placeholders(t + rest) == Placeholders(rest)
    decreases |t|
  {
    if t == [] {
      assert t + rest == rest;
    } else {
      var s := t + rest;
      assert s[0] == t[0] && t[0] in t;
      assert MatchEnd(s).None?;
      assert s[1..] == t[1..] + rest;
      PlaceholdersLit(t[1..], rest);
    }
  }

  /** `preg_match_all` on a template's text finds its holes, in order. */
  lemma {:induction false} PlaceholdersOfTemplate(ps: seq<Piece>)
    requires SimpleTemplate(ps)
    ensures Placeholders(Text(ps)) == Holes(ps)
  {
    if ps != [] {
      assert SimpleTemplate(ps[1..]) by {
        forall i | 0 <= i < |ps[1..]| ensures ps[1..][i] == ps[i + 1] { }
      }
      PlaceholdersOfTemplate(ps[1..]);
      match ps[0]
      case Lit(t) =>
        PlaceholdersLit(t, Text(ps[1..]));
      case Hole(n) =>
        PlaceholdersHole(n, Text(ps[1..]));
        assert Text(ps) == "{" + n + "}" + Text(ps[1..]);
    }
  }

  // ---------------------------------------------------------------------
  // str_replace of one hole's token.

  lemma {:induction false} StrReplaceLit(search: string, replace: string, t: string, rest: string)
    requires |search| >= 1 && search[0] == '{' && '{' !in t
    ensures StrReplace(search, replace, t + rest) == t + StrReplace(search, replace, rest)
    decreases |t|
  {
    if t == [] {
      assert t + rest == rest;
    } else {
      var s := t + rest;
      assert s[0] == t[0] && t[0] in t;
      if |s| < |search| {
        assert StrReplace(search, replace, rest) == rest;
      } else {
        assert s[..|search|][0] != search[0];
        assert s[1..] == t[1..] + rest;
        assert StrReplace(search, replace, s) == [s[0]] + StrReplace(search, replace, s[1..]);
        StrReplaceLit(search, replace, t[1..], rest);
      }
    }
  }

  lemma StrReplaceHole(m: string, n: string, replace: string, rest: string)
    requires SimpleName(m) && SimpleName(n)
    ensures StrReplace("{" + m + "}", replace, "{" + n + "}" + rest) ==
            (if m == n then replace else "{" + n + "}") + StrReplace("{" + m + "}", replace, rest)
  {
    var search := "{" + m + "}";
    var h := "{" + n + "}";
    var s := h + rest;
    if m == n {
      assert s[..|search|] == search;
      assert s[|search|..] == rest;
    } else if |s| < |search| {
      assert StrReplace(search, replace, rest) == rest;
    } else {
      if |m| == |n| {
        assert s[..|search|] == h;
        assert h[1..|h| - 1] == n && search[1..|search| - 1] == m;
      } else if |m| < |n| {
        assert s[..|search|][|m| + 1] == n[|m|] && n[|m|] in n;
        assert search[|m| + 1] == '}';
      } else {
        assert search[|n| + 1] == m[|n|] && m[|n|] in m;
        assert s[..|search|][|n| + 1] == '}';
      }
      assert s[..|search|] != search;
      assert forall c :: c in n + "}" ==> c in n || c == '}';
      assert s[1..] == (n + "}") + rest;
      StrReplaceLit(search, replace, n + "}", rest);
    }
  }

  /** The template with the hole `m` turned into the literal `r`. */
  function Subst(ps: seq<Piece>, m: string, r: string): (qs: seq<Piece>)
    ensures |qs| == |ps|
    ensures forall i :: 0 <= i < |ps| ==> qs[i] == (if ps[i] == Hole(m) then Lit(r) else ps[i])
  {
    if ps == [] then []
    else [if ps[0] == Hole(m) then Lit(r) else ps[0]] + Subst(ps[1..], m, r)
  }

  /** Replacing a hole's token in a template's text fills that hole. */
  lemma {:induction false} StrReplaceTemplate(m: string, r: string, ps: seq<Piece>)
    requires SimpleTemplate(ps) && SimpleName(m) && '{' !in r
    ensures StrReplace("{" + m + "}", r, Text(ps)) == Text(Subst(ps, m, r))
  {
    if ps != [] {
      var qs := Subst(ps, m, r);
      assert SimpleTemplate(ps[1..]) by {
        forall i | 0 <= i < |ps[1..]| ensures ps[1..][i] == ps[i + 1] { }
      }
      StrReplaceTemplate(m, r, ps[1..]);
      assert qs[1..] == Subst(ps[1..], m, r);
      match ps[0]
      case Lit(t) =>
        StrReplaceLit("{" + m + "}", r, t, Text(ps[1..]));
      case Hole(n) =>
        StrReplaceHole(m, n, r, Text(ps[1..]));
        assert Text(ps) == "{" + n + "}" + Text(ps[1..]);
    }
  }

  // ---------------------------------------------------------------------
  // The replacement loop on a template.

  function Names(ms: seq<Placeholder>): (ns: seq<string>)
    ensures |ns| == |ms|
    ensures forall i :: 0 <= i < |ms| ==> ns[i] == ms[i].name
  {
    if ms == [] then [] else [ms[0].name] + Names(ms[1..])
  }

  predicate WellTokened(ms: seq<Placeholder>)
  {
    forall i :: 0 <= i < |ms| ==> ms[i].token == "{" + ms[i].name + "}" && SimpleName(ms[i].name)
  }

  /** Every hole of `ps` is named in `ns`. */
  predicate HolesAmong(ps: seq<Piece>, ns: seq<string>)
  {
    forall i :: 0 <= i < |ps| && ps[i].Hole? ==> ps[i].name in ns
  }

  lemma {:induction false} ExpandWithoutHoles(kind: string, attrs: Entries, ps: seq<Piece>)
    requires HolesAmong(ps, [])
    ensures Text(ps) == Expand(kind, attrs, ps)
  {
    if ps != [] {
      assert ps[0].Lit?;
      assert HolesAmong(ps[1..], []) by {
        forall i | 0 <= i < |ps[1..]| ensures ps[1..][i] == ps[i + 1] { }
      }
      ExpandWithoutHoles(kind, attrs, ps[1..]);
    }
  }

  lemma {:induction false} ExpandSubst(kind: string, attrs: Entries, ps: seq<Piece>, m: string)
    ensures Expand(kind, attrs, Subst(ps, m, Encoded(kind, attrs, m))) == Expand(kind, attrs, ps)
  {
    if ps != [] {
      var qs := Subst(ps, m, Encoded(kind, attrs, m));
      assert qs[1..] == Subst(ps[1..], m, Encoded(kind, attrs, m));
      ExpandSubst(kind, attrs, ps[1..], m);
    }
  }

  lemma EncodedIsInert(kind: string, attrs: Entries, n: string)
    ensures '{' !in Encoded(kind, attrs, n)
  {
    var v := PlaceholderValue(kind, attrs, n);
    if v.Ok? {
      UrlEncodeIsInert(v.value);
    }
  }

  lemma {:induction false} ReplaceAllTemplate(kind: string, attrs: Entries, ms: seq<Placeholder>, ps: seq<Piece>)
    requires SimpleTemplate(ps) && WellTokened(ms) && HolesAmong(ps, Names(ms))
    ensures ReplaceAll(kind, attrs, ms, Text(ps)) == Expand(kind, attrs, ps)
    decreases |ms|
  {
    if ms == [] {
      ExpandWithoutHoles(kind, attrs, ps);
    } else {
      var m := ms[0];
      var r := Encoded(kind, attrs, m.name);
      EncodedIsInert(kind, attrs, m.name);
      StrReplaceTemplate(m.name, r, ps);
      var qs := Subst(ps, m.name, r);
      assert SimpleTemplate(qs);
      assert WellTokened(ms[1..]) by {
        forall i | 0 <= i < |ms[1..]| ensures ms[1..][i] == ms[i + 1] { }
      }
      assert Names(ms) == [m.name] + Names(ms[1..]);
      assert HolesAmong(qs, Names(ms[1..]));
      ReplaceAllTemplate(kind, attrs, ms[1..], qs);
      ExpandSubst(kind, attrs, ps, m.name);
    }
  }

  lemma {:induction false} HolesWellTokened(ps: seq<Piece>)
    requires SimpleTemplate(ps)
    ensures WellTokened(Holes(ps)) && HolesAmong(ps, Names(Holes(ps)))
  {
    if ps != [] {
      assert SimpleTemplate(ps[1..]) by {
        forall i | 0 <= i < |ps[1..]| ensures ps[1..][i] == ps[i + 1] { }
      }
      HolesWellTokened(ps[1..]);
      var hs := Holes(ps);
      forall i | 0 <= i < |ps| && ps[i].Hole? ensures ps[i].name in Names(hs) {
        if i > 0 {
          assert ps[i] == ps[1..][i - 1];
        }
      }
    }
  }

  /** `getResourcePath()` on a template is the reference resolution: a path
      that does not match `^/\S+$` is refused, otherwise the first unusable
      attribute is reported, otherwise every hole is filled with its
      urlencoded attribute and the literal text is kept as it is. */
  lemma ResourcePathOfTemplate(kind: string, attrs: Entries, ps: seq<Piece>)
    requires SimpleTemplate(ps)
    ensures ResourcePath(kind, Text(ps), attrs) ==
            if MatchesPathPattern(Text(ps)) then Render(kind, attrs, ps) else Err(InvalidPath(kind))
  {
    PlaceholdersOfTemplate(ps);
    SubstituteSplit(kind, attrs, Holes(ps), Text(ps));
    HolesWellTokened(ps);
    ReplaceAllTemplate(kind, attrs, Holes(ps), ps);
  }

  // ---------------------------------------------------------------------
  // The instance path `/{id}`.

  const IdTemplate: seq<Piece> := [Lit("/"), Hole("id")]

  lemma IdTemplateText()
    ensures Text(IdTemplate) == "/{id}" && SimpleTemplate(IdTemplate)
    ensures MatchesPathPattern("/{id}")
  {
    assert Text(IdTemplate) == "/" + ("{id}" + "");
    var p := "/{id}";
    assert forall i :: 1 <= i < |p| ==> !IsSpace(p[i]);
  }

  /** `/{id}` resolves to '/' and the encoded id, or fails as the id does. */
  lemma IdRender(kind: string, attrs: Entries)
    ensures ResourcePath(kind, "/{id}", attrs) ==
            match PlaceholderValue(kind, attrs, "id")
            case Err(e) => Err(e)
            case Ok(v) => Ok("/" + UrlEncode(v))
  {
    IdTemplateText();
    ResourcePathOfTemplate(kind, attrs, IdTemplate);
    IdHoles();
    IdExpand(kind, attrs);
    var hs := Holes(IdTemplate);
    assert hs[1..] == [];
    assert FirstFailure(kind, attrs, hs[1..]) == None;
  }

  lemma IdHoles()
    ensures Holes(IdTemplate) == [Placeholder("{id}", "id")]
  {
    var t := IdTemplate;
    assert t[1..] == [Hole("id")];
    assert t[1..][1..] == [];
    assert Holes(t[1..][1..]) == [];
    assert "{" + "id" + "}" == "{id}";
    assert Holes(t[1..]) == [Placeholder("{id}", "id")];
  }

  lemma IdExpand(kind: string, attrs: Entries)
    ensures Expand(kind, attrs, IdTemplate) == "/" + Encoded(kind, attrs, "id")
  {
    var t := IdTemplate;
    assert t[1..] == [Hole("id")];
    assert t[1..][1..] == [];
    assert Expand(kind, attrs, t[1..]) == Encoded(kind, attrs, "id") + "";
  }

  /** `/{id}` resolves to '/' and the urlencoded id when the id is a string
      or an int, and fails naming `id` when the id is null or was never set. */
  lemma IdPath(kind: string, attrs: Entries)
    ensures Lookup(attrs, "id").Some? && Lookup(attrs, "id").value.Str? ==>
              ResourcePath(kind, "/{id}", attrs) == Ok("/" + UrlEncode(Lookup(attrs, "id").value.s))
    ensures Lookup(attrs, "id").Some? && Lookup(attrs, "id").value.Int? ==>
              ResourcePath(kind, "/{id}", attrs) == Ok("/" + UrlEncode(IntToString(Lookup(attrs, "id").value.i)))
    ensures Lookup(attrs, "id") in {None, Some(Null)} ==>
              ResourcePath(kind, "/{id}", attrs) == Err(UndefinedAttribute(kind, "id"))
  {
    IdRender(kind, attrs);
  }

  // The worked examples below take their literal through a parameter
  // pinned by `requires` rather than writing it in the call, so that the
  // verifier does not unroll the string functions on a constant argument.

  /** An id with spaces: each space becomes '+'. */
  lemma SpacesPlain(s: string)
    requires s == "a string with spaces"
    ensures IsPlainText(s)
  {
    forall c | c in s ensures IsUnreserved(c as int) || c == ' ' {
      var i :| 0 <= i < |s| && s[i] == c;
    }
  }

  lemma SpacesPlus(s: string)
    requires s == "a string with spaces"
    ensures SpacesToPlus(s) == "a+string+with+spaces"
  {
    var t := "a+string+with+spaces";
    assert forall i :: 0 <= i < |s| ==> SpacesToPlus(s)[i] == t[i];
  }

  lemma SpacesExample(s: string)
    requires s == "a string with spaces"
    ensures UrlEncode(s) == "a+string+with+spaces"
  {
    SpacesPlain(s);
    UrlEncodePlainText(s);
    SpacesPlus(s);
  }

  /** The id "a string with spaces" puts "/a+string+with+spaces" into the path. */
  lemma IdWithSpaces(kind: string, attrs: Entries, id: string)
    requires id == "a string with spaces" && Lookup(attrs, "id") == Some(Str(id))
    ensures ResourcePath(kind, "/{id}", attrs) == Ok("/" + "a+string+with+spaces")
  {
    IdPath(kind, attrs);
    SpacesExample(id);
  }

  /** Digits are unreserved, so urlencode leaves "42" as it is. */
  lemma DigitsPlain(s: string)
    requires s == "42"
    ensures UrlEncode(s) == "42"
  {
    assert IsUnreserved(s[0] as int) && IsUnreserved(s[1] as int);
    assert IsPlainText(s);
    UrlEncodePlainText(s);
    assert forall i :: 0 <= i < |s| ==> SpacesToPlus(s)[i] == s[i];
  }

  /** The int id 42 puts "/42" into the path. */
  lemma IdFortyTwo(kind: string, attrs: Entries, i: int)
    requires i == 42 && Lookup(attrs, "id") == Some(Int(i))
    ensures ResourcePath(kind, "/{id}", attrs) == Ok("/" + "42")
  {
    IdPath(kind, attrs);
    var s := IntToString(i);
    FortyTwo(i);
    DigitsPlain(s);
  }
}
