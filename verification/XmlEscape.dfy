/** Escaping of the goal objective inside the continuation prompt: five
    replacements made one after another over the whole text. */
module XmlEscape {
  import opened Prelude

  function Replace(s: string, c: char, entity: string): string {
    if s == [] then []
    else (if s[0] == c then entity else [s[0]]) + Replace(s[1..], c, entity)
  }

  function ReplaceRest(s: string): string {
    Replace(Replace(Replace(Replace(s, '<', "&lt;"), '>', "&gt;"), '"', "&quot;"), '\'', "&apos;")
  }

  function Escape(s: string): string {
    ReplaceRest(Replace(s, '&', "&amp;"))
  }

  // ---- One pass, one character at a time

  /** The predefined entities of section 4.6 of XML 1.0. */
  function Entity(c: char): string {
    match c
    case '&' => "&amp;"
    case '<' => "&lt;"
    case '>' => "&gt;"
    case '"' => "&quot;"
    case '\'' => "&apos;"
    case _ => [c]
  }

  function EscapeAtOnce(s: string): string {
    if s == [] then [] else Entity(s[0]) + EscapeAtOnce(s[1..])
  }

  lemma {:induction false} ReplaceAppend(a: string, b: string, c: char, entity: string)
    ensures Replace(a + b, c, entity) == Replace(a, c, entity) + Replace(b, c, entity)
  {
    if a == [] {
      assert a + b == b;
    } else {
      assert (a + b)[1..] == a[1..] + b;
      ReplaceAppend(a[1..], b, c, entity);
    }
  }

  lemma {:induction false} ReplaceAbsent(s: string, c: char, entity: string)
    requires c !in s
    ensures Replace(s, c, entity) == s
  {
    if s != [] {
      ReplaceAbsent(s[1..], c, entity);
    }
  }

  lemma ReplaceOne(d: char, c: char, entity: string)
    ensures Replace([d], c, entity) == if d == c then entity else [d]
  {
    assert [d][1..] == [];
  }

  lemma ReplaceRestAppend(a: string, b: string)
    ensures ReplaceRest(a + b) == ReplaceRest(a) + ReplaceRest(b)
  {
    ReplaceAppend(a, b, '<', "&lt;");
    var a1, b1 := Replace(a, '<', "&lt;"), Replace(b, '<', "&lt;");
    ReplaceAppend(a1, b1, '>', "&gt;");
    var a2, b2 := Replace(a1, '>', "&gt;"), Replace(b1, '>', "&gt;");
    ReplaceAppend(a2, b2, '"', "&quot;");
    ReplaceAppend(Replace(a2, '"', "&quot;"), Replace(b2, '"', "&quot;"), '\'', "&apos;");
  }

  // Text with none of the four characters is left alone by the later passes.
  lemma RestKeepsCleanText(s: string)
    requires '<' !in s && '>' !in s && '"' !in s && '\'' !in s
    ensures ReplaceRest(s) == s
  {
    ReplaceAbsent(s, '<', "&lt;");
    ReplaceAbsent(s, '>', "&gt;");
    ReplaceAbsent(s, '"', "&quot;");
    ReplaceAbsent(s, '\'', "&apos;");
  }

  lemma RestStepByStep(a: string, b: string, c: string, d: string, e: string)
    requires Replace(a, '<', "&lt;") == b && Replace(b, '>', "&gt;") == c
    requires Replace(c, '"', "&quot;") == d && Replace(d, '\'', "&apos;") == e
    ensures ReplaceRest(a) == e
  {
  }

  // What the first pass made of a text stays if the later ones find nothing in it.
  lemma RestAfterFirst(a: string, e: string)
    requires Replace(a, '<', "&lt;") == e && '>' !in e && '"' !in e && '\'' !in e
    ensures ReplaceRest(a) == e
  {
    ReplaceAbsent(e, '>', "&gt;");
    ReplaceAbsent(e, '"', "&quot;");
    ReplaceAbsent(e, '\'', "&apos;");
    RestStepByStep(a, e, e, e, e);
  }

  lemma RestAfterSecond(a: string, e: string)
    requires '<' !in a && Replace(a, '>', "&gt;") == e && '"' !in e && '\'' !in e
    ensures ReplaceRest(a) == e
  {
    ReplaceAbsent(a, '<', "&lt;");
    ReplaceAbsent(e, '"', "&quot;");
    ReplaceAbsent(e, '\'', "&apos;");
    RestStepByStep(a, a, e, e, e);
  }

  lemma RestOfLess()
    ensures ReplaceRest("<") == "&lt;"
  {
    ReplaceOne('<', '<', "&lt;");
    RestAfterFirst("<", "&lt;");
  }

  lemma RestOfGreater()
    ensures ReplaceRest(">") == "&gt;"
  {
    ReplaceOne('>', '>', "&gt;");
    RestAfterSecond(">", "&gt;");
  }

  lemma RestOfDoubleQuote()
    ensures ReplaceRest("\"") == "&quot;"
  {
    var e := "&quot;";
    ReplaceOne('"', '<', "&lt;");
    ReplaceOne('"', '>', "&gt;");
    ReplaceOne('"', '"', e);
    ReplaceAbsent(e, '\'', "&apos;");
    RestStepByStep("\"", "\"", "\"", e, e);
  }

  lemma RestOfSingleQuote()
    ensures ReplaceRest("'") == "&apos;"
  {
    ReplaceOne('\'', '<', "&lt;");
    ReplaceOne('\'', '>', "&gt;");
    ReplaceOne('\'', '"', "&quot;");
    ReplaceOne('\'', '\'', "&apos;");
    RestStepByStep("'", "'", "'", "'", "&apos;");
  }

  lemma RestOfOne(d: char)
    ensures ReplaceRest([d]) == if d == '&' then "&" else Entity(d)
  {
    match d
    case '<' => RestOfLess();
    case '>' => RestOfGreater();
    case '"' => RestOfDoubleQuote();
    case '\'' => RestOfSingleQuote();
    case _ => RestKeepsCleanText([d]);
  }

  lemma EscapeOne(c: char)
    ensures ReplaceRest(Replace([c], '&', "&amp;")) == Entity(c)
  {
    ReplaceOne(c, '&', "&amp;");
    if c == '&' {
      RestKeepsCleanText("&amp;");
    } else {
      RestOfOne(c);
    }
  }

  lemma EscapeAppend(a: string, b: string)
    ensures Escape(a + b) == Escape(a) + Escape(b)
  {
    ReplaceAppend(a, b, '&', "&amp;");
    ReplaceRestAppend(Replace(a, '&', "&amp;"), Replace(b, '&', "&amp;"));
  }

  /** Because the ampersand goes first, the five passes do what one pass does
      that replaces each character by its entity. */
  lemma {:induction false} PassesEscapeAtOnce(s: string)
    ensures Escape(s) == EscapeAtOnce(s)
  {
    if s == [] {
      RestKeepsCleanText([]);
    } else {
      assert s == [s[0]] + s[1..];
      EscapeAppend([s[0]], s[1..]);
      EscapeOne(s[0]);
      PassesEscapeAtOnce(s[1..]);
    }
  }

  // ---- What the order is for

  function EscapeAmpersandLast(s: string): string {
    Replace(ReplaceRest(s), '&', "&amp;")
  }

  function Specials(s: string): nat {
    if s == [] then 0 else (if s[0] in "<>\"'" then 1 else 0) + Specials(s[1..])
  }

  lemma AmpersandPassOverEntity(d: char)
    ensures |Replace(ReplaceRest([d]), '&', "&amp;")| == |Entity(d)| + if d in "<>\"'" then 4 else 0
  {
    RestOfOne(d);
    ReplaceOne(d, '&', "&amp;");
    if d in "<>\"'" {
      var e := Entity(d);
      assert e == ['&'] + e[1..] && '&' !in e[1..];
      ReplaceAppend(['&'], e[1..], '&', "&amp;");
      ReplaceOne('&', '&', "&amp;");
      ReplaceAbsent(e[1..], '&', "&amp;");
    }
  }

  lemma {:induction false} AmpersandLastIsLonger(s: string)
    ensures |EscapeAmpersandLast(s)| == |EscapeAtOnce(s)| + 4 * Specials(s)
  {
    if s == [] {
      RestKeepsCleanText([]);
    } else {
      assert s == [s[0]] + s[1..];
      ReplaceRestAppend([s[0]], s[1..]);
      ReplaceAppend(ReplaceRest([s[0]]), ReplaceRest(s[1..]), '&', "&amp;");
      AmpersandPassOverEntity(s[0]);
      AmpersandLastIsLonger(s[1..]);
    }
  }

  lemma {:induction false} SpecialsAbsent(s: string)
    ensures Specials(s) == 0 <==> '<' !in s && '>' !in s && '"' !in s && '\'' !in s
  {
    if s != [] {
      SpecialsAbsent(s[1..]);
      assert s == [s[0]] + s[1..];
    }
  }

  /** With the ampersand pass last the result would be right exactly for texts
      that hold none of the other four characters. */
  lemma AmpersandLastIsRightExactlyWhen(s: string)
    ensures EscapeAmpersandLast(s) == Escape(s) <==> '<' !in s && '>' !in s && '"' !in s && '\'' !in s
  {
    PassesEscapeAtOnce(s);
    AmpersandLastIsLonger(s);
    SpecialsAbsent(s);
    if Specials(s) == 0 {
      RestKeepsCleanText(s);
      NoSpecialsInAmpersands(s);
      RestKeepsCleanText(Replace(s, '&', "&amp;"));
    }
  }

  lemma {:induction false} NoSpecialsInAmpersands(s: string)
    requires '<' !in s && '>' !in s && '"' !in s && '\'' !in s
    ensures var r := Replace(s, '&', "&amp;"); '<' !in r && '>' !in r && '"' !in r && '\'' !in r
  {
    if s != [] {
      NoSpecialsInAmpersands(s[1..]);
    }
  }

  // ---- Decoding

  // The character an entity at the front of s stands for, and its length.
  function DecodeFirst(s: string): Option<(char, nat)>
    requires s != []
  {
    if s[0] != '&' then Some((s[0], 1))
    else if "&amp;" <= s then Some(('&', 5))
    else if "&lt;" <= s then Some(('<', 4))
    else if "&gt;" <= s then Some(('>', 4))
    else if "&quot;" <= s then Some(('"', 6))
    else if "&apos;" <= s then Some(('\'', 6))
    else None
  }

  function Decode(s: string): Option<string> {
    if s == [] then Some([])
    else match DecodeFirst(s)
      case None => None
      case Some((c, length)) =>
        if length > |s| || length == 0 then None
        else match Decode(s[length..])
          case None => None
          case Some(rest) => Some([c] + rest)
  }

  lemma DecodeFirstInvertsEntity(c: char, rest: string)
    ensures DecodeFirst(Entity(c) + rest) == Some((c, |Entity(c)|))
    ensures (Entity(c) + rest)[|Entity(c)|..] == rest
  {
    var s := Entity(c) + rest;
    assert Entity(c) <= s;
    if Entity(c)[0] == '&' {
      assert s[1] == Entity(c)[1] && s[2] == Entity(c)[2];
    }
  }

  lemma DecodeStep(head: string, c: char, rest: string)
    requires head != [] && DecodeFirst(head + rest) == Some((c, |head|))
    requires (head + rest)[|head|..] == rest && Decode(rest).Some?
    ensures Decode(head + rest) == Some([c] + Decode(rest).value)
  {
  }

  lemma {:induction false} DecodeInvertsEscapeAtOnce(s: string)
    ensures Decode(EscapeAtOnce(s)) == Some(s)
  {
    if s != [] {
      var rest := EscapeAtOnce(s[1..]);
      DecodeInvertsEscapeAtOnce(s[1..]);
      DecodeFirstInvertsEntity(s[0], rest);
      DecodeStep(Entity(s[0]), s[0], rest);
      assert s == [s[0]] + s[1..];
    }
  }

  lemma EntityIsClean(c: char)
    ensures var r := Entity(c); '<' !in r && '>' !in r && '"' !in r && '\'' !in r
  {
  }

  lemma {:induction false} EscapedTextIsClean(s: string)
    ensures var r := EscapeAtOnce(s); '<' !in r && '>' !in r && '"' !in r && '\'' !in r
  {
    if s != [] {
      EscapedTextIsClean(s[1..]);
      EntityIsClean(s[0]);
      NotInEither(Entity(s[0]), EscapeAtOnce(s[1..]));
    }
  }

  lemma NotInEither(a: string, b: string)
    ensures forall c: char :: c !in a && c !in b ==> c !in a + b
  {
  }

  /** Decoding the predefined entities returns the original text, and the escaped
      text holds none of the four characters that end text or attributes. */
  lemma EscapeRoundTrips(s: string)
    ensures Decode(Escape(s)) == Some(s)
    ensures '<' !in Escape(s) && '>' !in Escape(s) && '"' !in Escape(s) && '\'' !in Escape(s)
  {
    PassesEscapeAtOnce(s);
    DecodeInvertsEscapeAtOnce(s);
    EscapedTextIsClean(s);
  }

  /** Each of the five characters becomes the predefined entity of its name, and no
      other changes; `EscapeAppend` says that this is all there is to it. */
  lemma CharactersEscapeAs(c: char)
    ensures Escape([c]) ==
            if c == '&' then "&amp;" else if c == '<' then "&lt;" else if c == '>' then "&gt;"
            else if c == '"' then "&quot;" else if c == '\'' then "&apos;" else [c]
  {
    EscapeOne(c);
  }
}
