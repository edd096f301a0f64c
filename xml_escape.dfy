/**
 * `escapeXml` of api/azure-openai.ts and server.js, which protects text placed into an
 * SSML document: five global replacements onto the predefined entities of section 4.6 of
 * XML 1.0, `&` first. The model proves that the chain is the same as escaping each
 * character on its own, that no markup character survives, that every `&` left begins
 * an entity, and that undoing the five replacements (`&amp;` last) restores the input.
 */
module XmlEscape {
  import opened JsString

  /** The five characters that have a predefined entity. */
  const Specials: set<char> := {'&', '<', '>', '"', '\''}

  /** The characters that must never appear unescaped in text or in an attribute value. */
  const Markup: set<char> := {'<', '>', '"', '\''}

  function Entity(c: char): string
    requires c in Specials
  {
    if c == '&' then "&amp;"
    else if c == '<' then "&lt;"
    else if c == '>' then "&gt;"
    else if c == '"' then "&quot;"
    else "&apos;"
  }

  /** `escapeXml(input)`, as written: `&` must go first, or the `&` of the other entities
      would be escaped again. The chain escapes each character on its own, leaves no
      markup character, and every `&` it leaves begins an entity. */
  function EscapeXml(s: string): (r: string)
    ensures r == Staged(s, {})
    ensures WellEscaped(r)
  {
    EncodeChain(s);
    StagedWellEscaped(s);
    var s1 := ReplaceAll(s, "&", "&amp;");
    var s2 := ReplaceAll(s1, "<", "&lt;");
    var s3 := ReplaceAll(s2, ">", "&gt;");
    var s4 := ReplaceAll(s3, "\"", "&quot;");
    ReplaceAll(s4, "'", "&apos;")
  }

  /** The five replacements, `&` first, take every special character to its entity. */
  lemma EncodeChain(s: string)
    ensures var s1 := ReplaceAll(s, "&", "&amp;");
            var s2 := ReplaceAll(s1, "<", "&lt;");
            var s3 := ReplaceAll(s2, ">", "&gt;");
            var s4 := ReplaceAll(s3, "\"", "&quot;");
            ReplaceAll(s4, "'", "&apos;") == Staged(s, {})
  {
    EncodeAmp(s);
    EncodeLt(s);
    EncodeGt(s);
    EncodeQuot(s);
    EncodeApos(s);
  }

  /** The characters still left raw after each replacement of the chain. */
  const AfterAmp: set<char> := {'<', '>', '"', '\''}
  const AfterLt: set<char> := {'>', '"', '\''}
  const AfterGt: set<char> := {'"', '\''}
  const AfterQuot: set<char> := {'\''}

  lemma EncodeAmp(s: string)
    ensures ReplaceAll(s, "&", "&amp;") == Staged(s, AfterAmp)
  {
    StagedAllRaw(s);
    EncodeStep(s, Specials, '&');
    assert Specials - {'&'} == AfterAmp;
  }

  lemma EncodeLt(s: string)
    ensures ReplaceAll(Staged(s, AfterAmp), "<", "&lt;") == Staged(s, AfterLt)
  {
    EncodeStep(s, AfterAmp, '<');
    assert AfterAmp - {'<'} == AfterLt;
  }

  lemma EncodeGt(s: string)
    ensures ReplaceAll(Staged(s, AfterLt), ">", "&gt;") == Staged(s, AfterGt)
  {
    EncodeStep(s, AfterLt, '>');
    assert AfterLt - {'>'} == AfterGt;
  }

  lemma EncodeQuot(s: string)
    ensures ReplaceAll(Staged(s, AfterGt), "\"", "&quot;") == Staged(s, AfterQuot)
  {
    EncodeStep(s, AfterGt, '"');
    assert AfterGt - {'"'} == AfterQuot;
  }

  lemma EncodeApos(s: string)
    ensures ReplaceAll(Staged(s, AfterQuot), "'", "&apos;") == Staged(s, {})
  {
    EncodeStep(s, AfterQuot, '\'');
    assert AfterQuot - {'\''} == {};
  }

  function UnescapeXml(s: string): string {
    var s1 := ReplaceAll(s, "&lt;", "<");
    var s2 := ReplaceAll(s1, "&gt;", ">");
    var s3 := ReplaceAll(s2, "&quot;", "\"");
    var s4 := ReplaceAll(s3, "&apos;", "'");
    ReplaceAll(s4, "&amp;", "&")
  }

  /** The same chain with `&amp;` undone first: the order the round trip rules out. */
  function UnescapeAmpFirst(s: string): string {
    var s1 := ReplaceAll(s, "&amp;", "&");
    var s2 := ReplaceAll(s1, "&lt;", "<");
    var s3 := ReplaceAll(s2, "&gt;", ">");
    var s4 := ReplaceAll(s3, "&quot;", "\"");
    ReplaceAll(s4, "&apos;", "'")
  }

  // ---------------------------------------------------------------------------------
  // A one-pass reference: every intermediate string of both chains is `Staged(s, raw)`,
  // where the characters in `raw` still stand for themselves.

  function Chunk(c: char, raw: set<char>): string {
    if c in Specials && c !in raw then Entity(c) else [c]
  }

  function Staged(s: string, raw: set<char>): string
    decreases |s|
  {
    if s == [] then [] else Chunk(s[0], raw) + Staged(s[1..], raw)
  }

  /** Every `&` in the string begins one of the five entities. */
  predicate EntityAt(r: string, i: nat)
    requires i <= |r|
  {
    var t := r[i..];
    StartsWith(t, "&amp;") || StartsWith(t, "&lt;") || StartsWith(t, "&gt;")
    || StartsWith(t, "&quot;") || StartsWith(t, "&apos;")
  }

  /** What `escapeXml` promises of its output. */
  predicate WellEscaped(r: string) {
    && (forall i :: 0 <= i < |r| ==> r[i] !in Markup)
    && (forall i :: 0 <= i < |r| && r[i] == '&' ==> EntityAt(r, i))
  }

  lemma {:induction false} StagedAllRaw(s: string)
    ensures Staged(s, Specials) == s
    decreases |s|
  {
    if s != [] {
      StagedAllRaw(s[1..]);
      assert [s[0]] + s[1..] == s;
    }
  }

  /** After the `&` step no markup character is at risk: a character without an entity
      keeps itself. */
  lemma {:induction false} StagedPlain(s: string, raw: set<char>)
    requires forall i :: 0 <= i < |s| ==> s[i] !in Specials
    ensures Staged(s, raw) == s
    decreases |s|
  {
    if s != [] {
      StagedPlain(s[1..], raw);
      assert [s[0]] + s[1..] == s;
    }
  }

  /** One step of the escaping chain: replacing a character by its entity, provided `&`
      is done before any entity exists. */
  lemma {:induction false} EncodeStep(s: string, raw: set<char>, x: char)
    requires x in raw && x in Specials
    requires x == '&' ==> Specials <= raw
    ensures ReplaceAll(Staged(s, raw), [x], Entity(x)) == Staged(s, raw - {x})
    decreases |s|
  {
    if s == [] {
    } else {
      var c := s[0];
      var rest := Staged(s[1..], raw);
      ReplaceAllCharAppend(Chunk(c, raw), rest, x, Entity(x));
      EncodeStep(s[1..], raw, x);
      if c == x {
        ReplaceAllHere([], [x], Entity(x));
        assert Chunk(c, raw) == [x] + [];
        assert Entity(x) + [] == Entity(x);
      } else if c in Specials && c !in raw {
        EntityShape(c);
        assert x !in Entity(c);
        ReplaceAllSkip(Entity(c), [], [x], Entity(x));
        assert Entity(c) + [] == Entity(c);
      } else {
        ReplaceAllSkip([c], [], [x], Entity(x));
        assert [c] + [] == [c];
      }
    }
  }

  /** Two different entities never start at the same place. */
  lemma EntitiesDiffer(c: char, x: char, u: string)
    requires c in Specials && x in Specials && c != x
    ensures !StartsWith(Entity(c) + u, Entity(x))
  {
    var t := Entity(c) + u;
    assert t[1] == Entity(c)[1] && t[2] == Entity(c)[2];
  }

  /** One step of the unescaping chain: an entity back to its character, provided `&`
      is still escaped. */
  lemma {:induction false} DecodeStep(s: string, raw: set<char>, x: char)
    requires x in Specials && x !in raw && '&' !in raw
    ensures ReplaceAll(Staged(s, raw), Entity(x), [x]) == Staged(s, raw + {x})
    decreases |s|
  {
    if s != [] {
      var c := s[0];
      var rest := Staged(s[1..], raw);
      DecodeStep(s[1..], raw, x);
      if c in Specials && c !in raw {
        DecodeEntity(c, x, rest);
      } else {
        ReplaceAllSkip([c], rest, Entity(x), [x]);
      }
    }
  }

  /** Decoding one entity: it becomes its character if it is `x`'s, and stays otherwise. */
  lemma DecodeEntity(c: char, x: char, rest: string)
    requires c in Specials && x in Specials
    ensures ReplaceAll(Entity(c) + rest, Entity(x), [x]) ==
            (if c == x then [x] else Entity(c)) + ReplaceAll(rest, Entity(x), [x])
  {
    if c == x {
      ReplaceAllHere(rest, Entity(x), [x]);
    } else {
      EntityShape(c);
      EntityShape(x);
      EntitiesDiffer(c, x, rest);
      ReplaceAllMiss(Entity(c), rest, Entity(x), [x]);
    }
  }

  /** An entity is `&`, then lower-case letters and `;`. */
  lemma EntityShape(c: char)
    requires c in Specials
    ensures |Entity(c)| >= 4 && Entity(c)[0] == '&'
    ensures forall k :: 1 <= k < |Entity(c)| ==> Entity(c)[k] == ';' || 'a' <= Entity(c)[k] <= 'z'
  {
  }

  /** Decoding the five entities, `&amp;` last, gives back the original text. */
  lemma RoundTrip(s: string)
    ensures UnescapeXml(EscapeXml(s)) == s
  {
    DecodeLt(s);
    DecodeGt(s);
    DecodeQuot(s);
    DecodeApos(s);
    DecodeAmp(s);
    StagedAllRaw(s);
  }

  lemma DecodeLt(s: string)
    ensures ReplaceAll(Staged(s, {}), "&lt;", "<") == Staged(s, {'<'})
  {
    DecodeStep(s, {}, '<');
    assert {} + {'<'} == {'<'};
  }

  lemma DecodeGt(s: string)
    ensures ReplaceAll(Staged(s, {'<'}), "&gt;", ">") == Staged(s, {'<', '>'})
  {
    DecodeStep(s, {'<'}, '>');
    assert {'<'} + {'>'} == {'<', '>'};
  }

  lemma DecodeQuot(s: string)
    ensures ReplaceAll(Staged(s, {'<', '>'}), "&quot;", "\"") == Staged(s, {'<', '>', '"'})
  {
    DecodeStep(s, {'<', '>'}, '"');
    assert {'<', '>'} + {'"'} == {'<', '>', '"'};
  }

  lemma DecodeApos(s: string)
    ensures ReplaceAll(Staged(s, {'<', '>', '"'}), "&apos;", "'") == Staged(s, {'<', '>', '"', '\''})
  {
    DecodeStep(s, {'<', '>', '"'}, '\'');
    assert {'<', '>', '"'} + {'\''} == {'<', '>', '"', '\''};
  }

  lemma DecodeAmp(s: string)
    ensures ReplaceAll(Staged(s, {'<', '>', '"', '\''}), "&amp;", "&") == Staged(s, Specials)
  {
    DecodeStep(s, {'<', '>', '"', '\''}, '&');
    assert {'<', '>', '"', '\''} + {'&'} == Specials;
  }

  /** Escaping leaves no markup character, and every `&` begins an entity. */
  lemma {:induction false} StagedWellEscaped(s: string)
    ensures WellEscaped(Staged(s, {}))
    decreases |s|
  {
    if s != [] {
      var ch := Chunk(s[0], {});
      var rest := Staged(s[1..], {});
      var r := ch + rest;
      StagedWellEscaped(s[1..]);
      forall i | 0 <= i < |r|
        ensures r[i] !in Markup
        ensures r[i] == '&' ==> EntityAt(r, i)
      {
        if i < |ch| {
          assert r[i] == ch[i];
          if r[i] == '&' {
            assert i == 0;
            assert r[0..] == ch + rest;
          }
        } else {
          assert r[i] == rest[i - |ch|];
          assert r[i..] == rest[i - |ch|..];
        }
      }
    }
  }

  /** Text with none of the five characters passes through unchanged. */
  lemma EscapeXmlPlain(s: string)
    requires forall i :: 0 <= i < |s| ==> s[i] !in Specials
    ensures EscapeXml(s) == s
  {
    StagedPlain(s, {});
  }

  /** Undoing `&amp;` first is wrong: `&lt;` is escaped to `&amp;lt;`, which would then
      decode twice, to `<`. */
  lemma AmpFirstBreaksRoundTrip()
    ensures EscapeXml("&lt;") == "&amp;lt;"
    ensures UnescapeAmpFirst(EscapeXml("&lt;")) == "<"
  {
    EscapeEntityText();
    AmpFirstStep();
    LtStep();
    assert "<" + "" == "<";
    ReplaceAllSkip("<", "", "&gt;", ">");
    ReplaceAllSkip("<", "", "&quot;", "\"");
    ReplaceAllSkip("<", "", "&apos;", "'");
  }

  lemma EscapeEntityText()
    ensures EscapeXml("&lt;") == "&amp;lt;"
  {
    EscapeAmpPrefix("lt;");
    assert "&" + "lt;" == "&lt;";
    assert "&amp;" + "lt;" == "&amp;lt;";
  }

  /** A leading `&` before plain text is the only character escaped. */
  lemma EscapeAmpPrefix(t: string)
    requires forall i :: 0 <= i < |t| ==> t[i] !in Specials
    ensures EscapeXml("&" + t) == "&amp;" + t
  {
    var s := "&" + t;
    assert s[0] == '&' && s[1..] == t;
    StagedPlain(t, {});
  }

  lemma AmpFirstStep()
    ensures ReplaceAll("&amp;lt;", "&amp;", "&") == "&lt;"
  {
    ReplaceAllHere("lt;", "&amp;", "&");
    ReplaceAllSkip("lt;", "", "&amp;", "&");
    assert "lt;" + "" == "lt;";
    assert "&amp;" + "lt;" == "&amp;lt;";
  }

  lemma LtStep()
    ensures ReplaceAll("&lt;", "&lt;", "<") == "<"
  {
    ReplaceAllHere("", "&lt;", "<");
    assert "&lt;" + "" == "&lt;";
  }
}
