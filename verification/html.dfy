/**
 * The part of `htmlentities($v, ENT_QUOTES, 'UTF-8')` that concerns the
 * five HTML-reserved characters. On text made of ASCII characters alone
 * this is the whole of what `htmlentities` does.
 */
module Html {

  /** The replacement for one character. */
  function Entity(c: char): string {
    match c
    case '&' => "&amp;"
    case '<' => "&lt;"
    case '>' => "&gt;"
    case '"' => "&quot;"
    case '\'' => "&#039;"
    case _ => [c]
  }

  /** A character that may not appear raw inside a quoted attribute value. */
  predicate Reserved(c: char) {
    c == '"' || c == '\'' || c == '<' || c == '>'
  }

  /** `t` opens with one of the five entities `Entity` writes. */
  predicate StartsEntity(t: string) {
    "&amp;" <= t || "&lt;" <= t || "&gt;" <= t || "&quot;" <= t || "&#039;" <= t
  }

  /** Every `&` of `t` opens an entity, so no raw `&` is left. */
  predicate AmpersandsEscaped(t: string) {
    forall i :: 0 <= i < |t| && t[i] == '&' ==> StartsEntity(t[i..])
  }

  /** Putting one character's replacement in front keeps every `&` the opening of an entity. */
  lemma EntityKeepsAmpersandsEscaped(c: char, t: string)
    requires AmpersandsEscaped(t)
    ensures AmpersandsEscaped(Entity(c) + t)
  {
    var e := Entity(c);
    var r := e + t;
    forall i | 0 <= i < |r| && r[i] == '&'
      ensures StartsEntity(r[i..])
    {
      if i < |e| {
        assert e[i] == '&';
        assert i == 0 && e != [c];
        assert e <= r[i..];
      } else {
        assert r[i..] == t[i - |e|..];
      }
    }
  }

  /** Replaces every reserved character, and every `&`, by its entity. */
  function EscapeReserved(s: string): (r: string)
    ensures forall i :: 0 <= i < |r| ==> !Reserved(r[i])
    ensures forall i :: 0 <= i < |r| && r[i] == '&' ==> StartsEntity(r[i..])
    ensures |r| >= |s|
  {
    if |s| == 0 then ""
    else
      var rest := EscapeReserved(s[1..]);
      EntityKeepsAmpersandsEscaped(s[0], rest);
      Entity(s[0]) + rest
  }

  /** Decodes the five entities `EscapeReserved` writes; other text is kept. */
  function Unescape(s: string): string
    decreases |s|
  {
    if |s| == 0 then ""
    else if "&amp;" <= s then "&" + Unescape(s[5..])
    else if "&lt;" <= s then "<" + Unescape(s[4..])
    else if "&gt;" <= s then ">" + Unescape(s[4..])
    else if "&quot;" <= s then "\"" + Unescape(s[6..])
    else if "&#039;" <= s then "'" + Unescape(s[6..])
    else [s[0]] + Unescape(s[1..])
  }

  /** `Unescape` reads each entity back as the character it stands for. */
  lemma UnescapeAmp(t: string)
    ensures Unescape("&amp;" + t) == "&" + Unescape(t)
  {
    var s := "&amp;" + t;
    assert "&amp;" <= s && s[5..] == t;
  }

  lemma UnescapeLt(t: string)
    ensures Unescape("&lt;" + t) == "<" + Unescape(t)
  {
    var s := "&lt;" + t;
    assert s[1] == 'l' && "&lt;" <= s && s[4..] == t;
  }

  lemma UnescapeGt(t: string)
    ensures Unescape("&gt;" + t) == ">" + Unescape(t)
  {
    var s := "&gt;" + t;
    assert s[1] == 'g' && "&gt;" <= s && s[4..] == t;
  }

  lemma UnescapeQuot(t: string)
    ensures Unescape("&quot;" + t) == "\"" + Unescape(t)
  {
    var s := "&quot;" + t;
    assert s[1] == 'q' && "&quot;" <= s && s[6..] == t;
  }

  lemma UnescapeApos(t: string)
    ensures Unescape("&#039;" + t) == "'" + Unescape(t)
  {
    var s := "&#039;" + t;
    assert s[1] == '#' && "&#039;" <= s && s[6..] == t;
  }

  /** Undoing one character's entity gives back that character. */
  lemma UnescapeEntity(c: char, t: string)
    ensures Unescape(Entity(c) + t) == [c] + Unescape(t)
  {
    match c
    case '&' => UnescapeAmp(t);
    case '<' => UnescapeLt(t);
    case '>' => UnescapeGt(t);
    case '"' => UnescapeQuot(t);
    case '\'' => UnescapeApos(t);
    case _ =>
      var s := Entity(c) + t;
      assert s[0] == c && s[1..] == t;
  }

  /** Escaping loses nothing: the original text can be recovered. */
  lemma {:induction false} EscapeRoundTrip(s: string)
    ensures Unescape(EscapeReserved(s)) == s
  {
    if |s| > 0 {
      UnescapeEntity(s[0], EscapeReserved(s[1..]));
      EscapeRoundTrip(s[1..]);
      assert [s[0]] + s[1..] == s;
    }
  }
}
