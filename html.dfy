/** `escapeHtml`, defined identically in routes/messages.js and routes/articles.js: five global
    `String.prototype.replace` passes, `&` first. */
module Html {

  /** `s.replace(/c/g, entity)`: every occurrence of the character `c` replaced by `entity`. */
  function ReplaceAll(s: string, c: char, entity: string): string
  {
    if s == [] then [] else (if s[0] == c then entity else [s[0]]) + ReplaceAll(s[1..], c, entity)
  }

  /** `escapeHtml(text)` as written: the chain of five replacements, in source order. */
  function Escape(s: string): string
  {
    ReplaceAll(ReplaceAll(ReplaceAll(ReplaceAll(ReplaceAll(s, '&', "&amp;"), '<', "&lt;"), '>', "&gt;"), '"', "&quot;"), '\'', "&#039;")
  }

  /** The entity one character becomes, as an independent per-character reference. */
  function EscapeChar(c: char): string
  {
    match c
    case '&' => "&amp;"
    case '<' => "&lt;"
    case '>' => "&gt;"
    case '"' => "&quot;"
    case '\'' => "&#039;"
    case _ => [c]
  }

  /** Escaping character by character. */
  function EscapeEach(s: string): string
  {
    if s == [] then [] else EscapeChar(s[0]) + EscapeEach(s[1..])
  }

  /** The five entities `Escape` produces. */
  predicate StartsEntity(t: string)
  {
    "&amp;" <= t || "&lt;" <= t || "&gt;" <= t || "&quot;" <= t || "&#039;" <= t
  }

  predicate IsMarkup(c: char)
  {
    c == '<' || c == '>' || c == '"' || c == '\''
  }

  lemma {:induction false} ReplaceAllAppend(a: string, b: string, c: char, entity: string)
    ensures ReplaceAll(a + b, c, entity) == ReplaceAll(a, c, entity) + ReplaceAll(b, c, entity)
  {
    if a == [] {
      assert a + b == b;
    } else {
      assert (a + b)[1..] == a[1..] + b;
      ReplaceAllAppend(a[1..], b, c, entity);
    }
  }

  lemma {:induction false} ReplaceAllAbsent(s: string, c: char, entity: string)
    requires c !in s
    ensures ReplaceAll(s, c, entity) == s
  {
    if s != [] {
      ReplaceAllAbsent(s[1..], c, entity);
    }
  }

  lemma ReplaceAllSingle(x: char, c: char, entity: string)
    ensures ReplaceAll([x], c, entity) == if x == c then entity else [x]
  {
    assert [x][1..] == [];
  }

  /** The replacement chain applied to one character. */
  lemma EscapeOneChar(c: char)
    ensures Escape([c]) == EscapeChar(c)
  {
    ReplaceAllSingle(c, '&', "&amp;");
    var a1 := ReplaceAll([c], '&', "&amp;");
    if c == '&' {
      MarkupFreeIsInert(a1);
    } else {
      assert a1 == [c];
      ReplaceAllSingle(c, '<', "&lt;");
      var a2 := ReplaceAll(a1, '<', "&lt;");
      if c == '<' {
        MarkupFreeIsInert(a2);
      } else {
        assert a2 == [c];
        ReplaceAllSingle(c, '>', "&gt;");
        var a3 := ReplaceAll(a2, '>', "&gt;");
        if c == '>' {
          MarkupFreeIsInert(a3);
        } else {
          assert a3 == [c];
          ReplaceAllSingle(c, '"', "&quot;");
          var a4 := ReplaceAll(a3, '"', "&quot;");
          if c == '"' {
            ReplaceAllAbsent(a4, '\'', "&#039;");
          } else {
            assert a4 == [c];
            ReplaceAllSingle(c, '\'', "&#039;");
          }
        }
      }
    }
  }

  /** Text without markup characters passes the last four replacements unchanged. */
  lemma MarkupFreeIsInert(e: string)
    requires forall i :: 0 <= i < |e| ==> !IsMarkup(e[i])
    ensures ReplaceAll(e, '<', "&lt;") == e && ReplaceAll(e, '>', "&gt;") == e
    ensures ReplaceAll(e, '"', "&quot;") == e && ReplaceAll(e, '\'', "&#039;") == e
  {
    ReplaceAllAbsent(e, '<', "&lt;");
    ReplaceAllAbsent(e, '>', "&gt;");
    ReplaceAllAbsent(e, '"', "&quot;");
    ReplaceAllAbsent(e, '\'', "&#039;");
  }

  /** Replacing `&` first is what makes the chain safe: no later pass rewrites the `&` of an
      entity an earlier pass produced, so the chain escapes each character independently. */
  lemma {:induction false} EscapeIsPerCharacter(s: string)
    ensures Escape(s) == EscapeEach(s)
  {
    if s != [] {
      var c, rest := s[0], s[1..];
      assert s == [c] + rest;
      var s1 := ReplaceAll(s, '&', "&amp;");
      ReplaceAllAppend([c], rest, '&', "&amp;");
      var a1, b1 := ReplaceAll([c], '&', "&amp;"), ReplaceAll(rest, '&', "&amp;");
      ReplaceAllAppend(a1, b1, '<', "&lt;");
      var a2, b2 := ReplaceAll(a1, '<', "&lt;"), ReplaceAll(b1, '<', "&lt;");
      ReplaceAllAppend(a2, b2, '>', "&gt;");
      var a3, b3 := ReplaceAll(a2, '>', "&gt;"), ReplaceAll(b2, '>', "&gt;");
      ReplaceAllAppend(a3, b3, '"', "&quot;");
      var a4, b4 := ReplaceAll(a3, '"', "&quot;"), ReplaceAll(b3, '"', "&quot;");
      ReplaceAllAppend(a4, b4, '\'', "&#039;");
      assert Escape(s) == Escape([c]) + Escape(rest);
      EscapeOneChar(c);
      EscapeIsPerCharacter(rest);
    }
  }

  /** The escaped text holds none of `<`, `>`, `"`, `'`. */
  lemma {:induction false} EscapeHasNoMarkup(s: string)
    ensures forall i :: 0 <= i < |Escape(s)| ==> !IsMarkup(Escape(s)[i])
  {
    EscapeIsPerCharacter(s);
    EachHasNoMarkup(s);
  }

  lemma {:induction false} EachHasNoMarkup(s: string)
    ensures forall i :: 0 <= i < |EscapeEach(s)| ==> !IsMarkup(EscapeEach(s)[i])
  {
    if s != [] {
      EachHasNoMarkup(s[1..]);
      var head, tail := EscapeChar(s[0]), EscapeEach(s[1..]);
      forall i | 0 <= i < |head + tail| ensures !IsMarkup((head + tail)[i]) {
        if i >= |head| {
          assert (head + tail)[i] == tail[i - |head|];
        }
      }
    }
  }

  /** Every `&` of the escaped text begins one of the five entities. */
  lemma {:induction false} EscapeAmpersandsStartEntities(s: string)
    ensures forall i :: 0 <= i < |Escape(s)| && Escape(s)[i] == '&' ==> StartsEntity(Escape(s)[i..])
  {
    EscapeIsPerCharacter(s);
    EachAmpersandsStartEntities(s);
  }

  lemma {:induction false} EachAmpersandsStartEntities(s: string)
    ensures forall i :: 0 <= i < |EscapeEach(s)| && EscapeEach(s)[i] == '&' ==> StartsEntity(EscapeEach(s)[i..])
  {
    if s != [] {
      EachAmpersandsStartEntities(s[1..]);
      var head, tail := EscapeChar(s[0]), EscapeEach(s[1..]);
      forall i | 0 <= i < |head + tail| && (head + tail)[i] == '&' ensures StartsEntity((head + tail)[i..]) {
        if i >= |head| {
          assert (head + tail)[i..] == tail[i - |head|..];
        } else {
          assert i == 0;
          assert head <= (head + tail)[i..];
        }
      }
    }
  }

  /** Decoding the five entities back: the partner `Escape` is checked against. */
  function Unescape(t: string): string
    decreases |t|
  {
    if t == [] then []
    else if t[0] != '&' then [t[0]] + Unescape(t[1..])
    else if "&amp;" <= t then "&" + Unescape(t[5..])
    else if "&lt;" <= t then "<" + Unescape(t[4..])
    else if "&gt;" <= t then ">" + Unescape(t[4..])
    else if "&quot;" <= t then "\"" + Unescape(t[6..])
    else if "&#039;" <= t then "'" + Unescape(t[6..])
    else [t[0]] + Unescape(t[1..])
  }

  /** Escaping loses nothing: the original text is recovered from the stored one. */
  lemma {:induction false} UnescapeEscape(s: string)
    ensures Unescape(Escape(s)) == s
  {
    EscapeIsPerCharacter(s);
    UnescapeEach(s);
  }

  /** Escaping empties exactly the empty text, so an escaped message fails the schema's
      required-content check exactly when the submitted content was empty. */
  lemma EscapeEmpty(s: string)
    ensures Escape(s) == [] <==> s == []
  {
    UnescapeEscape(s);
  }

  lemma {:induction false} UnescapeEach(s: string)
    ensures Unescape(EscapeEach(s)) == s
  {
    if s != [] {
      UnescapeEach(s[1..]);
      UnescapeHead(s[0], EscapeEach(s[1..]));
      assert s == [s[0]] + s[1..];
    }
  }

  lemma UnescapeHead(c: char, tail: string)
    ensures Unescape(EscapeChar(c) + tail) == [c] + Unescape(tail)
  {
    var head := EscapeChar(c);
    var t := head + tail;
    assert t[|head|..] == tail;
    assert head <= t;
    if c == '<' || c == '>' {
      assert t[1] != 'a';
    } else if c == '"' || c == '\'' {
      assert t[1] != 'a' && t[1] != 'l' && t[1] != 'g';
      assert c == '\'' ==> t[1] != 'q';
    }
  }
}
