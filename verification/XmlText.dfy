/**
  Character data as quick-xml writes and reads it: escaping, entity references, and the white-space
  normalisation of attribute values. A string is its UTF-8 bytes. `charRef` stands for the reading of
  a numeric reference such as `#60`.
 */
module XmlText {
  import opened Wrappers
  import opened Text

  type CharRef = string -> Option<string>

  /** A numeric reference has no apostrophe in it. */
  ghost predicate CharRefLaw(charRef: CharRef) {
    forall name :: '\'' in name ==> charRef(name) == None
  }

  // ---- escaping ----------------------------------------------------------

  function EscapedChar(c: char): string {
    if c == '<' then "&lt;"
    else if c == '>' then "&gt;"
    else if c == '&' then "&amp;"
    else if c == '\'' then "&apos;"
    else if c == '\"' then "&quot;"
    else [c]
  }

  function Escape(s: string): string {
    if s == "" then "" else EscapedChar(s[0]) + Escape(s[1..])
  }

  /** None of the characters that end a text or an attribute value is left. */
  lemma {:induction false} NothingSpecialIsLeft(s: string)
    ensures '<' !in Escape(s) && '>' !in Escape(s) && '\'' !in Escape(s)
  {
    if s != "" {
      NothingSpecialIsLeft(s[1..]);
      var e := EscapedChar(s[0]);
      assert '<' !in e && '>' !in e && '\'' !in e;
    }
  }

  // ---- entity references -------------------------------------------------

  function Entity(charRef: CharRef, name: string): Option<string> {
    if name == "lt" then Some("<")
    else if name == "gt" then Some(">")
    else if name == "amp" then Some("&")
    else if name == "apos" then Some("'")
    else if name == "quot" then Some("\"")
    else if name != "" && name[0] == '#' then charRef(name)
    else None
  }

  function Prepend(head: string, rest: Option<string>): Option<string> {
    match rest
    case Some(r) => Some(head + r)
    case None => None
  }

  /** Every reference replaced; `None` when one is not terminated or not known. */
  function Resolved(charRef: CharRef, s: string): Option<string>
    decreases |s|
  {
    if s == "" then Some("")
    else if s[0] != '&' then Prepend([s[0]], Resolved(charRef, s[1..]))
    else
      var n := Before(s[1..], ';');
      if n == |s| - 1 || '&' in s[1..][..n] then None
      else
        match Entity(charRef, s[1..][..n])
        case Some(v) => Prepend(v, Resolved(charRef, s[n + 2..]))
        case None => None
  }

  /** `xml_unescape`: text that cannot be resolved is returned as it is. */
  function Unescape(charRef: CharRef, s: string): string {
    match Resolved(charRef, s)
    case Some(v) => v
    case None => s
  }

  lemma ResolvedReference(charRef: CharRef, name: string, rest: string)
    requires ';' !in name && '&' !in name
    ensures Resolved(charRef, "&" + name + ";" + rest) ==
              match Entity(charRef, name)
              case Some(v) => Prepend(v, Resolved(charRef, rest))
              case None => None
  {
    var s := "&" + name + ";" + rest;
    assert s[1..] == name + [';'] + rest;
    BeforeSeparator(name, ';', rest);
    assert s[1..][..|name|] == name;
    assert s[|name| + 2..] == rest;
  }

  /** The five entities, as they are written and as they are read; any other name fails. */
  lemma PredefinedEntities(charRef: CharRef, name: string, rest: string)
    ensures Escape("<") == "&lt;" && Escape(">") == "&gt;" && Escape("&") == "&amp;"
    ensures Escape("'") == "&apos;" && Escape("\"") == "&quot;"
    ensures Entity(charRef, "lt") == Some("<") && Entity(charRef, "gt") == Some(">") && Entity(charRef, "amp") == Some("&")
    ensures Entity(charRef, "apos") == Some("'") && Entity(charRef, "quot") == Some("\"")
    ensures name !in ["lt", "gt", "amp", "apos", "quot"] && (name == "" || name[0] != '#') && ';' !in name && '&' !in name ==>
              Resolved(charRef, "&" + name + ";" + rest) == None
  {
    OneEscape('<');
    OneEscape('>');
    OneEscape('&');
    OneEscape('\'');
    OneEscape('\"');
    assert "lt"[0] != "gt"[0] && |"amp"| == 3 && |"apos"| == 4 && |"quot"| == 4 && "apos"[0] != "quot"[0];
    hide Resolved, Escape;
    if ';' !in name && '&' !in name {
      ResolvedReference(charRef, name, rest);
    }
  }

  lemma OneEscape(c: char)
    ensures Escape([c]) == EscapedChar(c)
  {
    assert [c][1..] == "" && EscapedChar(c) + "" == EscapedChar(c);
  }

  lemma ResolvedChar(charRef: CharRef, c: char, rest: string)
    ensures Resolved(charRef, EscapedChar(c) + rest) == Prepend([c], Resolved(charRef, rest))
  {
    if c == '<' {
      EscapedReference(charRef, c, "lt", rest);
    } else if c == '>' {
      EscapedReference(charRef, c, "gt", rest);
    } else if c == '&' {
      EscapedReference(charRef, c, "amp", rest);
    } else if c == '\'' {
      EscapedReference(charRef, c, "apos", rest);
    } else if c == '\"' {
      EscapedReference(charRef, c, "quot", rest);
    } else {
      assert ([c] + rest)[1..] == rest;
    }
  }

  lemma EscapedReference(charRef: CharRef, c: char, name: string, rest: string)
    requires ';' !in name && '&' !in name
    requires EscapedChar(c) == "&" + name + ";" && Entity(charRef, name) == Some([c])
    ensures Resolved(charRef, EscapedChar(c) + rest) == Prepend([c], Resolved(charRef, rest))
  {
    ResolvedReference(charRef, name, rest);
  }

  /** Resolving undoes escaping. */
  lemma {:induction false} ResolvingUndoesEscaping(charRef: CharRef, s: string)
    ensures Resolved(charRef, Escape(s)) == Some(s)
  {
    if s != "" {
      ResolvingUndoesEscaping(charRef, s[1..]);
      ResolvedChar(charRef, s[0], Escape(s[1..]));
      assert [s[0]] + s[1..] == s;
    }
  }

  // ---- attribute values --------------------------------------------------

  predicate IsBreak(c: char) {
    c == '\t' || c == '\n' || c == '\r'
  }

  /** A tab or a line end becomes a space; a carriage return and line feed together become one. */
  function Spaced(s: string): string
    decreases |s|
  {
    if s == "" then ""
    else if |s| >= 2 && s[0] == '\r' && s[1] == '\n' then " " + Spaced(s[2..])
    else (if IsBreak(s[0]) then " " else [s[0]]) + Spaced(s[1..])
  }

  /** An attribute value as an application sees it. */
  function Normalized(charRef: CharRef, raw: string): Option<string> {
    Resolved(charRef, Spaced(raw))
  }

  function ReplaceApostrophes(s: string): string {
    if s == "" then "" else (if s[0] == '\'' then "&apos;" else [s[0]]) + ReplaceApostrophes(s[1..])
  }

  /** What is written back for an attribute value that was read as `raw`. */
  function Rewritten(charRef: CharRef, raw: string): string {
    match Normalized(charRef, raw)
    case Some(v) => Escape(v)
    case None => ReplaceApostrophes(raw)
  }

  predicate NoBreaks(s: string) {
    forall i :: 0 <= i < |s| ==> !IsBreak(s[i])
  }

  lemma {:induction false} SpacedIffNoBreaks(s: string)
    ensures |Spaced(s)| <= |s| && NoBreaks(Spaced(s))
    ensures Spaced(s) == s <==> NoBreaks(s)
    decreases |s|
  {
    if s == "" {
    } else if |s| >= 2 && s[0] == '\r' && s[1] == '\n' {
      SpacedIffNoBreaks(s[2..]);
    } else {
      SpacedIffNoBreaks(s[1..]);
      assert Spaced(s)[1..] == Spaced(s[1..]);
      assert s == [s[0]] + s[1..];
      assert NoBreaks(s) ==> NoBreaks(s[1..]);
    }
  }

  lemma {:induction false} SpacedAppends(a: string, b: string)
    requires NoBreaks(a)
    ensures Spaced(a + b) == a + Spaced(b)
  {
    if a == "" {
      assert a + b == b;
    } else {
      assert (a + b)[1..] == a[1..] + b;
      SpacedAppends(a[1..], b);
      assert [a[0]] + (a[1..] + Spaced(b)) == a + Spaced(b);
    }
  }

  lemma EscapeOne(c: char, t: string)
    ensures Escape([c] + t) == EscapedChar(c) + Escape(t)
  {
    assert ([c] + t)[1..] == t;
  }

  lemma EscapeStart(t: string)
    ensures Escape(t) != "" && Escape(t)[0] == '\n' <==> t != "" && t[0] == '\n'
  {
    if t != "" {
      var e := EscapedChar(t[0]);
      assert Escape(t) == e + Escape(t[1..]) && (e + Escape(t[1..]))[0] == e[0];
    }
  }

  lemma SpacedBreak(c: char, t: string)
    requires IsBreak(c) && !(c == '\r' && t != "" && t[0] == '\n')
    ensures Spaced([c] + t) == " " + Spaced(t)
  {
    assert ([c] + t)[1..] == t;
  }

  lemma SpacedPair(t: string)
    ensures Spaced(['\r'] + (['\n'] + t)) == " " + Spaced(t)
  {
    var s := ['\r'] + (['\n'] + t);
    assert s[2..] == t;
  }

  // The three ways a string can go on, for the lemma after them.

  lemma EscapeThenSpacePair(u: string)
    requires Spaced(Escape(u)) == Escape(Spaced(u))
    ensures var s := ['\r'] + (['\n'] + u); Spaced(Escape(s)) == Escape(Spaced(s))
  {
    EscapeOne('\r', ['\n'] + u);
    EscapeOne('\n', u);
    SpacedPair(u);
    SpacedPair(Escape(u));
    EscapeOne(' ', Spaced(u));
  }

  lemma BreakIsNotEscaped(c: char)
    requires IsBreak(c) || c == ' '
    ensures EscapedChar(c) == [c]
  {
  }

  lemma EscapeThenSpaceBreak(c: char, t: string)
    requires IsBreak(c) && !(c == '\r' && t != "" && t[0] == '\n')
    requires Spaced(Escape(t)) == Escape(Spaced(t))
    ensures Spaced(Escape([c] + t)) == Escape(Spaced([c] + t))
  {
    calc {
      Spaced(Escape([c] + t));
      { EscapeOne(c, t); BreakIsNotEscaped(c); }
      Spaced([c] + Escape(t));
      { EscapeStart(t); SpacedBreak(c, Escape(t)); }
      " " + Escape(Spaced(t));
      { EscapeOne(' ', Spaced(t)); BreakIsNotEscaped(' '); }
      Escape(" " + Spaced(t));
      { SpacedBreak(c, t); }
      Escape(Spaced([c] + t));
    }
  }

  lemma EscapeThenSpaceOther(c: char, t: string)
    requires !IsBreak(c) && Spaced(Escape(t)) == Escape(Spaced(t))
    ensures Spaced(Escape([c] + t)) == Escape(Spaced([c] + t))
  {
    calc {
      Spaced(Escape([c] + t));
      { EscapeOne(c, t); }
      Spaced(EscapedChar(c) + Escape(t));
      { EscapedIsUnbroken(c); SpacedAppends(EscapedChar(c), Escape(t)); }
      EscapedChar(c) + Escape(Spaced(t));
      { EscapeOne(c, Spaced(t)); }
      Escape([c] + Spaced(t));
      { SpacedAppends([c], t); }
      Escape(Spaced([c] + t));
    }
  }

  lemma EscapedIsUnbroken(c: char)
    requires !IsBreak(c)
    ensures NoBreaks(EscapedChar(c))
  {
  }

  lemma {:induction false} EscapeThenSpace(s: string)
    ensures Spaced(Escape(s)) == Escape(Spaced(s))
    decreases |s|
  {
    if s != "" {
      var c, t := s[0], s[1..];
      assert s == [c] + t;
      if c == '\r' && t != "" && t[0] == '\n' {
        EscapeThenSpace(t[1..]);
        EscapeThenSpacePair(t[1..]);
        assert t == ['\n'] + t[1..];
      } else {
        EscapeThenSpace(t);
        if IsBreak(c) {
          EscapeThenSpaceBreak(c, t);
        } else {
          EscapeThenSpaceOther(c, t);
        }
      }
    }
  }

  /** What is read back from an attribute that was written with its value escaped. */
  lemma EscapedAttribute(charRef: CharRef, value: string)
    ensures Normalized(charRef, Escape(value)) == Some(Spaced(value))
  {
    EscapeThenSpace(value);
    ResolvingUndoesEscaping(charRef, Spaced(value));
  }

  lemma {:induction false} NoApostropheLeft(s: string)
    ensures '\'' !in ReplaceApostrophes(s)
  {
    if s != "" {
      NoApostropheLeft(s[1..]);
    }
  }

  lemma {:induction false} NothingToReplace(s: string)
    requires '\'' !in s
    ensures ReplaceApostrophes(s) == s
  {
    if s != "" {
      NothingToReplace(s[1..]);
      assert [s[0]] + s[1..] == s;
    }
  }

  lemma {:induction false} ReplaceAppends(a: string, b: string)
    ensures ReplaceApostrophes(a + b) == ReplaceApostrophes(a) + ReplaceApostrophes(b)
  {
    if a == "" {
      assert a + b == b;
    } else {
      assert (a + b)[1..] == a[1..] + b;
      ReplaceAppends(a[1..], b);
    }
  }

  /** A value that could not be resolved cannot be resolved after its apostrophes are escaped, and
      the other way round. */
  lemma {:induction false} StillUnresolved(charRef: CharRef, s: string)
    requires CharRefLaw(charRef)
    ensures Resolved(charRef, ReplaceApostrophes(s)) == Resolved(charRef, s)
    decreases |s|, 0
  {
    if s == "" {
    } else if s[0] == '\'' {
      StillUnresolved(charRef, s[1..]);
      ResolvedChar(charRef, '\'', ReplaceApostrophes(s[1..]));
    } else if s[0] != '&' {
      StillUnresolved(charRef, s[1..]);
      assert ([s[0]] + ReplaceApostrophes(s[1..]))[1..] == ReplaceApostrophes(s[1..]);
    } else {
      assert "&" + s[1..] == s;
      UnresolvedReference(charRef, s[1..]);
    }
  }

  lemma AmpersandFirst(charRef: CharRef, t: string)
    ensures Resolved(charRef, "&" + t) ==
              var n := Before(t, ';');
              if n == |t| || '&' in t[..n] then None
              else
                match Entity(charRef, t[..n])
                case Some(v) => Prepend(v, Resolved(charRef, t[n + 1..]))
                case None => None
  {
    var s := "&" + t;
    assert s[1..] == t;
    var n := Before(t, ';');
    assert n < |t| ==> s[n + 2..] == t[n + 1..];
  }

  lemma SameAfterReference(charRef: CharRef, name: string, u: string, v: string)
    requires ';' !in name && Resolved(charRef, u) == Resolved(charRef, v)
    ensures Resolved(charRef, "&" + (name + [';'] + u)) == Resolved(charRef, "&" + (name + [';'] + v))
  {
    var t, r := name + [';'] + u, name + [';'] + v;
    AmpersandFirst(charRef, t);
    AmpersandFirst(charRef, r);
    BeforeSeparator(name, ';', u);
    BeforeSeparator(name, ';', v);
    var n := |name|;
    assert t[..n] == name && r[..n] == name && t[n + 1..] == u && r[n + 1..] == v;
  }

  lemma ReplacedNameIsUnresolved(charRef: CharRef, name: string, tail: string)
    requires ';' !in name && '\'' in name
    ensures Resolved(charRef, "&" + (ReplaceApostrophes(name) + tail)) == None
  {
    BrokenName(name, tail);
    AmpersandFirst(charRef, ReplaceApostrophes(name) + tail);
  }

  lemma NameIsUnresolved(charRef: CharRef, name: string, rest: string)
    requires CharRefLaw(charRef) && ';' !in name && '\'' in name && (rest != "" ==> rest[0] == ';')
    ensures Resolved(charRef, "&" + (name + rest)) == None
  {
    EntityNames(charRef, name);
    var t := name + rest;
    if rest == "" {
      assert t == name;
      BeforeNothing(name, ';');
    } else {
      assert t == name + [';'] + rest[1..];
      BeforeSeparator(name, ';', rest[1..]);
    }
    assert Before(t, ';') == |name| && t[..|name|] == name;
    AmpersandFirst(charRef, t);
  }

  /** A reference without an apostrophe is left alone by the replacement. */
  lemma ReplacedAfterReference(name: string, u: string)
    requires '\'' !in name
    ensures ReplaceApostrophes("&" + (name + [';'] + u)) == "&" + (name + [';'] + ReplaceApostrophes(u))
  {
    var head := "&" + name + [';'];
    assert "&" + (name + [';'] + u) == head + u;
    assert "&" + (name + [';'] + ReplaceApostrophes(u)) == head + ReplaceApostrophes(u);
    ReplaceAppends(head, u);
    NothingToReplace(head);
  }

  lemma ReplacedInReference(name: string, rest: string)
    ensures ReplaceApostrophes("&" + (name + rest)) == "&" + (ReplaceApostrophes(name) + ReplaceApostrophes(rest))
  {
    ReplaceAppends("&", name + rest);
    ReplaceAppends(name, rest);
    NothingToReplace("&");
  }

  lemma ReferenceThenRest(charRef: CharRef, name: string, u: string)
    requires '\'' !in name && ';' !in name
    requires Resolved(charRef, ReplaceApostrophes(u)) == Resolved(charRef, u)
    ensures var t := name + [';'] + u; Resolved(charRef, ReplaceApostrophes("&" + t)) == Resolved(charRef, "&" + t)
  {
    ReplacedAfterReference(name, u);
    SameAfterReference(charRef, name, ReplaceApostrophes(u), u);
  }

  lemma BrokenReference(charRef: CharRef, name: string, rest: string)
    requires CharRefLaw(charRef) && ';' !in name && '\'' in name && (rest != "" ==> rest[0] == ';')
    ensures var t := name + rest; Resolved(charRef, ReplaceApostrophes("&" + t)) == Resolved(charRef, "&" + t)
  {
    ReplacedInReference(name, rest);
    ReplacedNameIsUnresolved(charRef, name, ReplaceApostrophes(rest));
    NameIsUnresolved(charRef, name, rest);
  }

  lemma PlainReference(t: string)
    requires '\'' !in t
    ensures ReplaceApostrophes("&" + t) == "&" + t
  {
    NothingToReplace("&" + t);
  }

  lemma UnresolvedReference(charRef: CharRef, t: string)
    requires CharRefLaw(charRef)
    ensures Resolved(charRef, ReplaceApostrophes("&" + t)) == Resolved(charRef, "&" + t)
    decreases |t|, 1
  {
    var n := Before(t, ';');
    var name := t[..n];
    if '\'' in name {
      assert t == name + t[n..];
      BrokenReference(charRef, name, t[n..]);
    } else if n == |t| {
      assert t == name;
      PlainReference(t);
    } else {
      StillUnresolved(charRef, t[n + 1..]);
      assert t == name + [';'] + t[n + 1..];
      ReferenceThenRest(charRef, name, t[n + 1..]);
    }
  }

  lemma EntityNames(charRef: CharRef, name: string)
    requires CharRefLaw(charRef) && '\'' in name
    ensures Entity(charRef, name) == None
  {
    assert '\'' !in "lt" && '\'' !in "gt" && '\'' !in "amp" && '\'' !in "apos" && '\'' !in "quot";
  }

  lemma ReferenceInReference(front: string, after: string)
    requires ';' !in front
    ensures var r := front + "&apos;" + after; '&' in r[..Before(r, ';')]
  {
    var r := front + "&apos;" + after;
    var name := front + "&apos";
    assert r == name + [';'] + after;
    BeforeSeparator(name, ';', after);
    assert r[..|name|] == name && name[|front|] == '&';
  }

  /** An apostrophe inside a reference leaves a second ampersand before the next semicolon. */
  lemma BrokenName(name: string, tail: string)
    requires ';' !in name && '\'' in name
    ensures var r := ReplaceApostrophes(name) + tail; '&' in r[..Before(r, ';')]
  {
    var front, back := AtApostrophe(name);
    var after := ReplaceApostrophes(back) + tail;
    ReplacedAround(front, back);
    assert front + "&apos;" + ReplaceApostrophes(back) + tail == front + "&apos;" + after;
    ReferenceInReference(front, after);
  }

  lemma AtApostrophe(name: string) returns (front: string, back: string)
    requires ';' !in name && '\'' in name
    ensures name == front + ['\''] + back && '\'' !in front && ';' !in front
  {
    var k := Before(name, '\'');
    assert k < |name| by {
      assert name[..|name|] == name;
    }
    front, back := name[..k], name[k + 1..];
    assert forall i :: 0 <= i < |front| ==> front[i] == name[i];
  }

  lemma ReplacedAround(front: string, back: string)
    requires '\'' !in front
    ensures ReplaceApostrophes(front + ['\''] + back) == front + "&apos;" + ReplaceApostrophes(back)
  {
    ReplaceAppends(front + ['\''], back);
    ReplaceAppends(front, ['\'']);
    NothingToReplace(front);
    assert ReplaceApostrophes(['\'']) == "&apos;";
  }

  /** Main result: writing an attribute value back leaves no raw apostrophe, and the second reader sees
      the same value as the first, and writes the same text, exactly when the value is unresolvable or
      holds no tab or line end of its own (which takes a numeric reference). */
  lemma RewrittenAttribute(charRef: CharRef, raw: string)
    requires CharRefLaw(charRef)
    ensures var again := Rewritten(charRef, raw);
            var survives := match Normalized(charRef, raw) case Some(v) => NoBreaks(v) case None => NoBreaks(raw);
            && '\'' !in again
            && (Normalized(charRef, raw).Some? ==>
                  (Normalized(charRef, again) == Normalized(charRef, raw) <==> survives)
                  && (Rewritten(charRef, again) == again <==> survives))
            && (Normalized(charRef, raw).None? ==>
                  Normalized(charRef, again) == None && Rewritten(charRef, again) == again)
  {
    match Normalized(charRef, raw)
    case Some(v) =>
      NothingSpecialIsLeft(v);
      EscapedAttribute(charRef, v);
      SpacedIffNoBreaks(v);
      if Escape(Spaced(v)) == Escape(v) {
        ResolvingUndoesEscaping(charRef, v);
        ResolvingUndoesEscaping(charRef, Spaced(v));
      }
    case None =>
      NoApostropheLeft(raw);
      SpacedReplaced(raw);
      StillUnresolved(charRef, Spaced(raw));
      NothingToReplace(ReplaceApostrophes(raw));
  }

  lemma {:induction false} SpacedReplaced(s: string)
    ensures Spaced(ReplaceApostrophes(s)) == ReplaceApostrophes(Spaced(s))
    decreases |s|
  {
    if s != "" {
      var c, t := s[0], s[1..];
      assert s == [c] + t;
      ReplaceAppends([c], t);
      ReplaceStart(t);
      if c == '\r' && t != "" && t[0] == '\n' {
        var u := t[1..];
        assert t == ['\n'] + u;
        ReplaceAppends(['\n'], u);
        NothingToReplace(['\r']);
        NothingToReplace(['\n']);
        SpacedPair(u);
        SpacedPair(ReplaceApostrophes(u));
        SpacedReplaced(u);
        ReplaceAppends(" ", Spaced(u));
        NothingToReplace(" ");
      } else if IsBreak(c) {
        NothingToReplace([c]);
        SpacedBreak(c, t);
        SpacedBreak(c, ReplaceApostrophes(t));
        SpacedReplaced(t);
        ReplaceAppends(" ", Spaced(t));
        NothingToReplace(" ");
      } else {
        SpacedReplaced(t);
        SpacedAppends([c], t);
        SpacedAppends(ReplaceApostrophes([c]), ReplaceApostrophes(t));
        ReplaceAppends([c], Spaced(t));
      }
    }
  }

  lemma ReplaceStart(t: string)
    ensures ReplaceApostrophes(t) != "" && ReplaceApostrophes(t)[0] == '\n' <==> t != "" && t[0] == '\n'
  {
  }
}
