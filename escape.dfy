/** `escapeHtml` of the document generator: five global replacements, `&`
    first, so that the entities it introduces are not escaped again. */
module HtmlEscape {
  import opened JsString

  /** The text one character becomes. */
  function Entity(c: char): string {
    match c
    case '&' => "&amp;"
    case '<' => "&lt;"
    case '>' => "&gt;"
    case '"' => "&quot;"
    case '\'' => "&#039;"
    case _ => [c]
  }

  function Replacements(text: string): string {
    ReplaceAll(ReplaceAll(ReplaceAll(ReplaceAll(ReplaceAll(text, '&', "&amp;"), '<', "&lt;"), '>', "&gt;"), '"', "&quot;"), '\'', "&#039;")
  }

  /** `escapeHtml(text)`: the empty string for a falsy argument, otherwise the
      replacement chain; none of the four markup characters survives. */
  function EscapeHtml(text: string): (r: string)
    ensures text == "" ==> r == ""
    ensures '<' !in r && '>' !in r && '"' !in r && '\'' !in r
  {
    if text == "" then "" else Replacements(text)
  }

  /** The reference definition: every character replaced by its entity. */
  function EscapeChars(s: string): string
    decreases |s|
  {
    if s == [] then [] else Entity(s[0]) + EscapeChars(s[1..])
  }

  lemma {:induction false} ReplaceAllAbsent(s: string, c: char, r: string)
    requires c !in s
    ensures ReplaceAll(s, c, r) == s
    decreases |s|
  {
    if s != [] {
      ReplaceAllAbsent(s[1..], c, r);
      assert [s[0]] + s[1..] == s;
    }
  }

  lemma ReplaceAllOne(x: char, c: char, r: string)
    ensures ReplaceAll([x], c, r) == if x == c then r else [x]
  {
    assert [x][1..] == [];
  }

  /** One step of the chain leaves an entity of an earlier step alone. */
  lemma StepKeeps(e: string, c: char, r: string)
    requires c !in e
    ensures ReplaceAll(e, c, r) == e
  {
    ReplaceAllAbsent(e, c, r);
  }

  lemma ChainFrom1(t: string)
    requires '<' !in t && '>' !in t && '"' !in t && '\'' !in t
    ensures ReplaceAll(ReplaceAll(ReplaceAll(ReplaceAll(t, '<', "&lt;"), '>', "&gt;"), '"', "&quot;"), '\'', "&#039;") == t
  {
    StepKeeps(t, '<', "&lt;");
    StepKeeps(t, '>', "&gt;");
    StepKeeps(t, '"', "&quot;");
    StepKeeps(t, '\'', "&#039;");
  }

  lemma ChainFrom2(t: string)
    requires '>' !in t && '"' !in t && '\'' !in t
    ensures ReplaceAll(ReplaceAll(ReplaceAll(t, '>', "&gt;"), '"', "&quot;"), '\'', "&#039;") == t
  {
    StepKeeps(t, '>', "&gt;");
    StepKeeps(t, '"', "&quot;");
    StepKeeps(t, '\'', "&#039;");
  }

  lemma ChainFrom3(t: string)
    requires '"' !in t && '\'' !in t
    ensures ReplaceAll(ReplaceAll(t, '"', "&quot;"), '\'', "&#039;") == t
  {
    StepKeeps(t, '"', "&quot;");
    StepKeeps(t, '\'', "&#039;");
  }

  lemma ReplacementsOneChar(c: char)
    ensures Replacements([c]) == Entity(c)
  {
    ReplaceAllOne(c, '&', "&amp;");
    if c == '&' {
      ChainFrom1("&amp;");
    } else {
      ReplaceAllOne(c, '<', "&lt;");
      if c == '<' {
        ChainFrom2("&lt;");
      } else {
        ReplaceAllOne(c, '>', "&gt;");
        if c == '>' {
          ChainFrom3("&gt;");
        } else {
          ReplaceAllOne(c, '"', "&quot;");
          if c == '"' {
            StepKeeps("&quot;", '\'', "&#039;");
          } else {
            ReplaceAllOne(c, '\'', "&#039;");
          }
        }
      }
    }
  }

  lemma ReplacementsAppend(a: string, b: string)
    ensures Replacements(a + b) == Replacements(a) + Replacements(b)
  {
    ReplaceAllAppend(a, b, '&', "&amp;");
    var a1, b1 := ReplaceAll(a, '&', "&amp;"), ReplaceAll(b, '&', "&amp;");
    ReplaceAllAppend(a1, b1, '<', "&lt;");
    var a2, b2 := ReplaceAll(a1, '<', "&lt;"), ReplaceAll(b1, '<', "&lt;");
    ReplaceAllAppend(a2, b2, '>', "&gt;");
    var a3, b3 := ReplaceAll(a2, '>', "&gt;"), ReplaceAll(b2, '>', "&gt;");
    ReplaceAllAppend(a3, b3, '"', "&quot;");
    var a4, b4 := ReplaceAll(a3, '"', "&quot;"), ReplaceAll(b3, '"', "&quot;");
    ReplaceAllAppend(a4, b4, '\'', "&#039;");
  }

  /** The replacement chain escapes character by character: since `&` goes
      first, no entity is touched by a later replacement. */
  lemma {:induction false} EscapeIsPerCharacter(s: string)
    ensures Replacements(s) == EscapeChars(s)
    decreases |s|
  {
    if s == [] {
      ReplaceAllAbsent([], '&', "&amp;");
      ReplaceAllAbsent([], '<', "&lt;");
      ReplaceAllAbsent([], '>', "&gt;");
      ReplaceAllAbsent([], '"', "&quot;");
      ReplaceAllAbsent([], '\'', "&#039;");
    } else {
      assert s == [s[0]] + s[1..];
      ReplacementsAppend([s[0]], s[1..]);
      ReplacementsOneChar(s[0]);
      EscapeIsPerCharacter(s[1..]);
    }
  }

  /** Whether one of the five entities starts `t`. */
  predicate StartsEntity(t: string) {
    || (|t| >= 5 && t[..5] == "&amp;")
    || (|t| >= 4 && t[..4] == "&lt;")
    || (|t| >= 4 && t[..4] == "&gt;")
    || (|t| >= 6 && t[..6] == "&quot;")
    || (|t| >= 6 && t[..6] == "&#039;")
  }

  /** The length of the entity that starts `t`, 0 when none does. */
  function EntityLength(t: string): nat {
    if |t| >= 5 && t[..5] == "&amp;" then 5
    else if |t| >= 4 && (t[..4] == "&lt;" || t[..4] == "&gt;") then 4
    else if |t| >= 6 && (t[..6] == "&quot;" || t[..6] == "&#039;") then 6
    else 0
  }

  /** The character the entity starting `t` stands for. */
  function EntityChar(t: string): char
    requires EntityLength(t) > 0
  {
    match t[1]
    case 'a' => '&'
    case 'l' => '<'
    case 'g' => '>'
    case 'q' => '"'
    case _ => '\''
  }

  /** Decoding of the five entities; any other character stands for itself. */
  function Unescape(s: string): string
    decreases |s|
  {
    if s == [] then []
    else if EntityLength(s) > 0 then
      assert EntityLength(s) <= |s|;
      [EntityChar(s)] + Unescape(s[EntityLength(s)..])
    else [s[0]] + Unescape(s[1..])
  }

  lemma EntityOfMarkup(c: char, t: string)
    ensures var s := Entity(c) + t;
            && (c in "&<>\"'" ==> EntityLength(s) == |Entity(c)| && EntityChar(s) == c)
            && (c !in "&<>\"'" ==> EntityLength(s) == 0)
  {
    var s := Entity(c) + t;
    if c == '&' {
      assert s[..5] == "&amp;";
    } else if c == '<' {
      assert s[1] == 'l';
      assert s[..4] == "&lt;";
    } else if c == '>' {
      assert s[1] == 'g';
      assert s[..4] == "&gt;";
    } else if c == '"' {
      assert s[1] == 'q';
      assert s[..6] == "&quot;";
    } else if c == '\'' {
      assert s[1] == '#';
      assert s[..6] == "&#039;";
    } else {
      assert s[0] == c;
    }
  }

  lemma UnescapeEntity(c: char, t: string)
    ensures Unescape(Entity(c) + t) == [c] + Unescape(t)
  {
    var s := Entity(c) + t;
    EntityOfMarkup(c, t);
    assert s[|Entity(c)|..] == t;
  }

  /** An escaped markup character starts with its entity. */
  lemma EntityStartsEntity(c: char, t: string)
    requires c in "&<>\"'"
    ensures StartsEntity(Entity(c) + t)
  {
    var s := Entity(c) + t;
    if c == '&' {
      assert s[..5] == "&amp;";
    } else if c == '<' {
      assert s[..4] == "&lt;";
    } else if c == '>' {
      assert s[..4] == "&gt;";
    } else if c == '"' {
      assert s[..6] == "&quot;";
    } else {
      assert s[..6] == "&#039;";
    }
  }

  /** Decoding the escaped text gives the text back. */
  lemma {:induction false} UnescapeEscape(s: string)
    ensures Unescape(EscapeHtml(s)) == s
  {
    if s != [] {
      EscapeIsPerCharacter(s);
      UnescapeEscapeChars(s);
    }
  }

  lemma {:induction false} UnescapeEscapeChars(s: string)
    ensures Unescape(EscapeChars(s)) == s
    decreases |s|
  {
    if s != [] {
      UnescapeEntity(s[0], EscapeChars(s[1..]));
      UnescapeEscapeChars(s[1..]);
      assert [s[0]] + s[1..] == s;
    }
  }

  /** In escaped text every `&` begins one of the five entities. */
  lemma {:induction false} AmpersandsBeginEntities(s: string)
    ensures var e := EscapeHtml(s);
            forall i :: 0 <= i < |e| && e[i] == '&' ==> StartsEntity(e[i..])
  {
    if s != [] {
      EscapeIsPerCharacter(s);
      AmpersandsInEscapeChars(s);
    }
  }

  lemma {:induction false} AmpersandsInEscapeChars(s: string)
    ensures var e := EscapeChars(s);
            forall i :: 0 <= i < |e| && e[i] == '&' ==> StartsEntity(e[i..])
  {
    forall i | 0 <= i < |EscapeChars(s)| && EscapeChars(s)[i] == '&'
      ensures StartsEntity(EscapeChars(s)[i..])
    {
      AmpersandAt(s, i);
    }
  }

  lemma {:induction false} AmpersandAt(s: string, i: nat)
    requires i < |EscapeChars(s)| && EscapeChars(s)[i] == '&'
    ensures StartsEntity(EscapeChars(s)[i..])
    decreases |s|
  {
    var head, rest := Entity(s[0]), EscapeChars(s[1..]);
    var e := head + rest;
    assert e == EscapeChars(s);
    if i < |head| {
      assert head[i] == '&';
      assert i == 0 && s[0] in "&<>\"'";
      EntityStartsEntity(s[0], rest);
      assert e[i..] == e;
    } else {
      var j := i - |head|;
      assert rest[j] == e[i];
      AmpersandAt(s[1..], j);
      assert e[i..] == rest[j..];
    }
  }

  /** Text without any of the five characters comes through unchanged. */
  lemma EscapeHtmlPlain(t: string)
    requires '&' !in t && '<' !in t && '>' !in t && '"' !in t && '\'' !in t
    ensures EscapeHtml(t) == t
  {
    if t != "" {
      StepKeeps(t, '&', "&amp;");
      ChainFrom1(t);
    }
  }
}
