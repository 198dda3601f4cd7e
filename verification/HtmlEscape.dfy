/** Escaping text for HTML: five replacements over the whole string, one after the other. */
module HtmlEscape {
  import opened Results
  import opened Text

  /** String.prototype.replace with a global pattern of one character. */
  function Replace(s: string, c: char, code: string): string {
    if s == "" then "" else (if s[0] == c then code else [s[0]]) + Replace(s[1..], c, code)
  }

  function Chained(s: string): string {
    Replace(Replace(Replace(Replace(Replace(s, '&', "&amp;"), '<', "&lt;"), '>', "&gt;"), '"', "&quot;"), '\'', "&#39;")
  }

  function EscapeHtml(value: Option<string>): string {
    Chained(if value.Some? then value.value else "")
  }

  // ---------- One pass ----------

  function Entity(c: char): (e: string)
    ensures e != ""
  {
    match c
    case '&' => "&amp;"
    case '<' => "&lt;"
    case '>' => "&gt;"
    case '"' => "&quot;"
    case '\'' => "&#39;"
    case _ => [c]
  }

  function OnePass(s: string): string {
    if s == "" then "" else Entity(s[0]) + OnePass(s[1..])
  }

  lemma {:induction false} ReplaceAppend(a: string, b: string, c: char, code: string)
    ensures Replace(a + b, c, code) == Replace(a, c, code) + Replace(b, c, code)
  {
    if a == "" {
      assert a + b == b;
    } else {
      var ab := a + b;
      assert ab[0] == a[0] && ab[1..] == a[1..] + b;
      ReplaceAppend(a[1..], b, c, code);
      var head := if a[0] == c then code else [a[0]];
      assert Replace(ab, c, code) == head + Replace(ab[1..], c, code);
      assert Replace(a, c, code) == head + Replace(a[1..], c, code);
    }
  }

  lemma ChainedAppend(a: string, b: string)
    ensures Chained(a + b) == Chained(a) + Chained(b)
  {
    var a1, b1 := Replace(a, '&', "&amp;"), Replace(b, '&', "&amp;");
    ReplaceAppend(a, b, '&', "&amp;");
    var a2, b2 := Replace(a1, '<', "&lt;"), Replace(b1, '<', "&lt;");
    ReplaceAppend(a1, b1, '<', "&lt;");
    var a3, b3 := Replace(a2, '>', "&gt;"), Replace(b2, '>', "&gt;");
    ReplaceAppend(a2, b2, '>', "&gt;");
    var a4, b4 := Replace(a3, '"', "&quot;"), Replace(b3, '"', "&quot;");
    ReplaceAppend(a3, b3, '"', "&quot;");
    ReplaceAppend(a4, b4, '\'', "&#39;");
  }

  lemma {:induction false} ReplaceAbsent(s: string, c: char, code: string)
    requires c !in s
    ensures Replace(s, c, code) == s
  {
    if s != "" {
      ReplaceAbsent(s[1..], c, code);
      assert s == [s[0]] + s[1..];
    }
  }

  lemma ReplaceOne(c: char, d: char, code: string)
    ensures Replace([c], d, code) == if c == d then code else [c]
  {
    assert [c][1..] == "";
    assert code + "" == code && [c] + "" == [c];
  }

  /** No later replacement touches what an earlier one wrote: the ampersand goes first. */
  lemma ChainedOne(c: char)
    ensures Chained([c]) == Entity(c)
  {
    ReplaceOne(c, '&', "&amp;");
    ReplaceOne(c, '<', "&lt;");
    ReplaceOne(c, '>', "&gt;");
    ReplaceOne(c, '"', "&quot;");
    ReplaceOne(c, '\'', "&#39;");
    var e := Entity(c);
    assert '<' !in e && '>' !in e && '"' !in e && '\'' !in e;
    ReplaceAbsent(e, '<', "&lt;");
    ReplaceAbsent(e, '>', "&gt;");
    ReplaceAbsent(e, '"', "&quot;");
    ReplaceAbsent(e, '\'', "&#39;");
  }

  /** Five passes over the string equal one substitution per character, on every string. */
  lemma {:induction false} ChainedIsOnePass(s: string)
    ensures Chained(s) == OnePass(s)
  {
    if s == "" {
    } else {
      assert s == [s[0]] + s[1..];
      ChainedAppend([s[0]], s[1..]);
      ChainedOne(s[0]);
      ChainedIsOnePass(s[1..]);
    }
  }

  /** Escaping a concatenation concatenates the escapes. */
  lemma EscapeAppend(a: string, b: string)
    ensures EscapeHtml(Some(a + b)) == EscapeHtml(Some(a)) + EscapeHtml(Some(b))
  {
    ChainedAppend(a, b);
  }

  // ---------- Decoding ----------

  /** The first of the five entities at the front of a string. */
  function Leading(t: string): Option<char> {
    if "&amp;" <= t then Some('&')
    else if "&lt;" <= t then Some('<')
    else if "&gt;" <= t then Some('>')
    else if "&quot;" <= t then Some('"')
    else if "&#39;" <= t then Some('\'')
    else None
  }

  function Decode(t: string): string
    decreases |t|
  {
    if t == "" then ""
    else if Leading(t).Some? then [Leading(t).value] + Decode(t[|Entity(Leading(t).value)|..])
    else [t[0]] + Decode(t[1..])
  }

  /** Text with no raw special character, every ampersand beginning one of the five entities. */
  predicate IsEscaped(t: string)
    decreases |t|
  {
    t == ""
    || (if Leading(t).Some? then IsEscaped(t[|Entity(Leading(t).value)|..])
        else t[0] !in {'&', '<', '>', '"', '\''} && IsEscaped(t[1..]))
  }

  lemma LeadingEntity(c: char, rest: string)
    ensures Leading(Entity(c) + rest) == if c in {'&', '<', '>', '"', '\''} then Some(c) else None
    ensures (Entity(c) + rest)[|Entity(c)|..] == rest
  {
    var t := Entity(c) + rest;
    assert t[0] == Entity(c)[0];
    if c in {'&', '<', '>', '"', '\''} {
      assert Entity(c) <= t;
      assert t[1] == Entity(c)[1] && t[2] == Entity(c)[2];
    }
  }

  lemma LeadingSplits(t: string)
    requires Leading(t).Some?
    ensures Leading(t).value in {'&', '<', '>', '"', '\''}
    ensures var e := Entity(Leading(t).value); |e| <= |t| && t == e + t[|e|..]
  {
  }

  /** Decoding undoes escaping, and an escape has no raw special character. */
  lemma {:induction false} DecodeInvertsEscape(s: string)
    ensures Decode(Chained(s)) == s && IsEscaped(Chained(s))
  {
    ChainedIsOnePass(s);
    if s != "" {
      ChainedIsOnePass(s[1..]);
      DecodeInvertsEscape(s[1..]);
      LeadingEntity(s[0], OnePass(s[1..]));
      assert s == [s[0]] + s[1..];
    }
  }

  /** Escaping undoes decoding exactly on escaped text; so escaped text is exactly what escaping can give. */
  lemma {:induction false} EscapeInvertsDecode(t: string)
    ensures Chained(Decode(t)) == t <==> IsEscaped(t)
  {
    if IsEscaped(t) {
      OnePassOfDecode(t);
      ChainedIsOnePass(Decode(t));
    } else if Chained(Decode(t)) == t {
      DecodeInvertsEscape(Decode(t));
      assert false;
    }
  }

  lemma {:induction false} OnePassOfDecode(t: string)
    requires IsEscaped(t)
    ensures OnePass(Decode(t)) == t
    decreases |t|
  {
    if t != "" {
      if Leading(t).Some? {
        LeadingSplits(t);
        OnePassOfDecode(t[|Entity(Leading(t).value)|..]);
        assert Decode(t)[1..] == Decode(t[|Entity(Leading(t).value)|..]);
      } else {
        OnePassOfDecode(t[1..]);
        assert Decode(t)[1..] == Decode(t[1..]);
        assert t == [t[0]] + t[1..];
      }
    }
  }

  lemma {:induction false} EscapedHasNoRaw(t: string)
    requires IsEscaped(t)
    ensures forall c :: c in t ==> c !in {'<', '>', '"', '\''}
    decreases |t|
  {
    if t != "" {
      if Leading(t).Some? {
        LeadingSplits(t);
        EscapedHasNoRaw(t[|Entity(Leading(t).value)|..]);
      } else {
        EscapedHasNoRaw(t[1..]);
        assert t == [t[0]] + t[1..];
      }
    }
  }

  /** No markup character survives, and different texts never escape alike. */
  lemma EscapeIsSafe(a: string, b: string)
    ensures forall c :: c in EscapeHtml(Some(a)) ==> c !in {'<', '>', '"', '\''}
    ensures EscapeHtml(Some(a)) == EscapeHtml(Some(b)) ==> a == b
    ensures EscapeHtml(Some(a)) == a <==> forall c :: c in a ==> c !in {'&', '<', '>', '"', '\''}
  {
    DecodeInvertsEscape(a);
    DecodeInvertsEscape(b);
    EscapedHasNoRaw(Chained(a));
    ChainedIsOnePass(a);
    OnePassLength(a);
  }

  lemma {:induction false} OnePassLength(s: string)
    ensures |OnePass(s)| >= |s|
    ensures OnePass(s) == s <==> forall c :: c in s ==> c !in {'&', '<', '>', '"', '\''}
  {
    if s != "" {
      OnePassLength(s[1..]);
      assert s == [s[0]] + s[1..];
      if s[0] in {'&', '<', '>', '"', '\''} {
        assert |OnePass(s)| > |s| && s[0] in s;
      } else {
        assert OnePass(s)[1..] == OnePass(s[1..]);
        assert OnePass(s) == s <==> OnePass(s[1..]) == s[1..] by { assert OnePass(s)[0] == s[0]; }
        assert forall c :: c in s <==> c == s[0] || c in s[1..];
      }
    }
  }

  // ---------- Mail headers ----------

  predicate IsBreak(c: char) { c == '\r' || c == '\n' }

  /** Each run of CR and LF becomes one space. */
  function CollapseBreaks(s: string, inRun: bool): string {
    if s == "" then ""
    else if IsBreak(s[0]) then (if inRun then "" else " ") + CollapseBreaks(s[1..], true)
    else [s[0]] + CollapseBreaks(s[1..], false)
  }

  function EscapeMailHeader(value: Option<string>): string {
    Trim(CollapseBreaks(if value.Some? then value.value else "", false))
  }

  lemma {:induction false} CollapsedHasNoBreaks(s: string, inRun: bool)
    ensures forall c :: c in CollapseBreaks(s, inRun) ==> !IsBreak(c)
    ensures (forall c :: c in s ==> !IsBreak(c)) ==> CollapseBreaks(s, inRun) == s
  {
    if s != "" {
      CollapsedHasNoBreaks(s[1..], IsBreak(s[0]));
      assert s == [s[0]] + s[1..];
    }
  }

  /** A header holds no line break, escaping it again changes nothing, and only breaks and margins change it. */
  lemma MailHeaderIsOneLine(value: Option<string>)
    ensures var h := EscapeMailHeader(value);
            && (forall c :: c in h ==> !IsBreak(c)) && EscapeMailHeader(Some(h)) == h
    ensures value.Some? && (forall c :: c in value.value ==> !IsBreak(c)) ==> EscapeMailHeader(value) == Trim(value.value)
  {
    var s := if value.Some? then value.value else "";
    var flat := CollapseBreaks(s, false);
    CollapsedHasNoBreaks(s, false);
    var a, b := TrimResult(flat);
    var h := EscapeMailHeader(value);
    assert forall c :: c in h ==> c in flat;
    CollapsedHasNoBreaks(h, false);
    TrimOfTrimmed(h);
  }

  /** The five characters and what stands for them; every other character stands for itself. */
  lemma EntitiesAre(c: char)
    ensures EscapeHtml(Some("&")) == "&amp;" && EscapeHtml(Some("<")) == "&lt;" && EscapeHtml(Some(">")) == "&gt;"
    ensures EscapeHtml(Some("\"")) == "&quot;" && EscapeHtml(Some("'")) == "&#39;"
    ensures c !in {'&', '<', '>', '"', '\''} ==> EscapeHtml(Some([c])) == [c]
    ensures EscapeHtml(None) == ""
  {
    ChainedOne('&');
    ChainedOne('<');
    ChainedOne('>');
    ChainedOne('"');
    ChainedOne('\'');
    ChainedOne(c);
  }

  lemma {:induction false} CollapseText(a: string, rest: string, inRun: bool)
    requires forall c :: c in a ==> !IsBreak(c)
    ensures CollapseBreaks(a + rest, inRun) == a + CollapseBreaks(rest, if a == "" then inRun else false)
    decreases a
  {
    if a == "" {
      assert a + rest == rest;
    } else {
      CollapseText(a[1..], rest, false);
      assert (a + rest)[1..] == a[1..] + rest;
      assert a == [a[0]] + a[1..];
    }
  }

  lemma {:induction false} CollapseRun(breaks: string, rest: string)
    requires (forall c :: c in breaks ==> IsBreak(c)) && (rest == "" || !IsBreak(rest[0]))
    ensures CollapseBreaks(breaks + rest, true) == CollapseBreaks(rest, false)
    decreases breaks
  {
    if breaks == "" {
      assert breaks + rest == rest;
    } else {
      CollapseRun(breaks[1..], rest);
      assert (breaks + rest)[1..] == breaks[1..] + rest;
    }
  }

  /** A run of line breaks, however long, becomes one space between the texts around it. */
  lemma BreaksBecomeOneSpace(a: string, breaks: string, b: string)
    requires (forall c :: c in a ==> !IsBreak(c)) && (b == "" || !IsBreak(b[0]))
    requires breaks != "" && forall c :: c in breaks ==> IsBreak(c)
    ensures CollapseBreaks(a + (breaks + b), false) == a + (" " + CollapseBreaks(b, false))
  {
    CollapseText(a, breaks + b, false);
    CollapseRun(breaks[1..], b);
    assert (breaks + b)[1..] == breaks[1..] + b;
  }
}
