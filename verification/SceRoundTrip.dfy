/** Reading back an envelope that was written: affixes, content and body. */
module SceRoundTrip {
  import opened Wrappers
  import opened XmlText
  import opened Sce
  import opened SceCanonical

  // ---- the envelope as a tree --------------------------------------------

  function TimeNodes(before: Forest, time: Option<string>): Forest {
    match time
    case Some(t) => Then(before, Single("time", [Plain("stamp", Escape(t))], ""))
    case None => before
  }

  function Inside(e: Envelope, content: Forest, padding: string): Forest {
    var affixes := Then(
      Then(TimeNodes(Then(Nothing, Element("content", [], "", content, "")), e.time),
           Single("from", [Plain("jid", Escape(e.from))], "")),
      Single("to", [Plain("jid", Escape(e.to))], ""));
    Then(affixes, Element("rpad", [], "", Then(Nothing, Node.Text(padding)), ""))
  }

  function EnvelopeTree(e: Envelope, content: Forest, padding: string): Forest {
    Then(Nothing, Element("envelope", [Plain("xmlns", NS_SCE)], "", Inside(e, content, padding), ""))
  }

  lemma OneAttribute(name: string, raw: string)
    ensures AttributesText([Plain(name, raw)]) + "" == AttributesText([Plain(name, raw)]) == Quoted(name, raw)
  {
    assert [Plain(name, raw)][..0] == [];
    PlainText(name, raw);
    assert "" + Quoted(name, raw) == Quoted(name, raw);
  }

  lemma AffixText(before: Forest, tag: string, name: string, value: string)
    ensures Serialized(Then(before, Single(tag, [Plain(name, Escape(value))], "")))
              == Serialized(before) + Childless(tag, Quoted(name, Escape(value)))
  {
    OneAttribute(name, Escape(value));
  }

  lemma FirstText(n: Node)
    ensures Serialized(Then(Nothing, n)) == SerializedNode(n)
  {
    assert "" + SerializedNode(n) == SerializedNode(n);
  }

  lemma PlainElementText(name: string, children: Forest)
    ensures SerializedNode(Element(name, [], "", children, "")) == Opening(name, "") + Serialized(children) + Closing(name)
  {
    assert name + "" == name && "" + "" == "";
  }

  lemma InsideText(e: Envelope, content: Forest, padding: string)
    requires e.contentInner == Serialized(content)
    ensures Serialized(Inside(e, content, padding)) == Head(e) + Rpad(padding)
  {
    var f1 := Then(Nothing, Element("content", [], "", content, ""));
    FirstText(f1.last);
    PlainElementText("content", content);
    assert Serialized(f1) == WrappedContent(e.contentInner);
    var f2 := TimeNodes(f1, e.time);
    assert Serialized(f2) == Serialized(f1) + TimeText(e.time) by {
      if e.time.Some? {
        AffixText(f1, "time", "stamp", e.time.value);
      } else {
        assert Serialized(f1) + "" == Serialized(f1);
      }
    }
    AffixText(f2, "from", "jid", e.from);
    var f3 := Then(f2, Single("from", [Plain("jid", Escape(e.from))], ""));
    AffixText(f3, "to", "jid", e.to);
    FirstText(Node.Text(padding));
    PlainElementText("rpad", Then(Nothing, Node.Text(padding)));
  }

  /** What is written is the text of the tree. */
  lemma WrittenIsTheTree(e: Envelope, content: Forest, padding: string)
    requires e.contentInner == Serialized(content)
    ensures Serialized(EnvelopeTree(e, content, padding)) == Written(e, padding)
  {
    InsideText(e, content, padding);
    OneAttribute("xmlns", NS_SCE);
    FirstText(EnvelopeTree(e, content, padding).last);
  }

  // ---- affixes -----------------------------------------------------------

  lemma ReadAttribute(charRef: CharRef, name: string, value: string)
    ensures AttrStr(charRef, [Plain(name, Escape(value))], name) == Spaced(value)
  {
    EscapedAttribute(charRef, value);
  }

  function TimeReadBack(time: Option<string>): Option<string> {
    match time
    case Some(t) => if t == "" then None else Some(Spaced(t))
    case None => None
  }

  lemma ReadInside(charRef: CharRef, e: Envelope, content: Forest, padding: string)
    ensures Read(charRef, BLANK.envelope, Inside(e, content, padding)) ==
              Envelope(Printed(charRef, content), Spaced(e.from), Spaced(e.to), TimeReadBack(e.time))
  {
    var e0 := BLANK.envelope;
    var e1 := Envelope(Printed(charRef, content), "", "", None);
    var f1 := Then(Nothing, Element("content", [], "", content, ""));
    assert Read(charRef, e0, f1) == e1 by {
      assert "" + Printed(charRef, content) == Printed(charRef, content);
    }
    var e2 := e1.(time := TimeReadBack(e.time));
    var f2 := TimeNodes(f1, e.time);
    assert Read(charRef, e0, f2) == e2 by {
      if e.time.Some? {
        ReadAttribute(charRef, "stamp", e.time.value);
      }
    }
    ReadAttribute(charRef, "jid", e.from);
    ReadAttribute(charRef, "jid", e.to);
    var e3 := e2.(from := Spaced(e.from));
    var f3 := Then(f2, Single("from", [Plain("jid", Escape(e.from))], ""));
    assert Read(charRef, e0, f3) == e3;
    var e4 := e3.(to := Spaced(e.to));
    var f4 := Then(f3, Single("to", [Plain("jid", Escape(e.to))], ""));
    assert Read(charRef, e0, f4) == e4;
    assert Read(charRef, e4, Then(Nothing, Node.Text(padding))) == e4;
  }

  /** What any written envelope is read back as. */
  lemma WrittenEnvelopeIsRead(charRef: CharRef, e: Envelope, content: Forest, padding: string)
    ensures Parsed(charRef, Events(EnvelopeTree(e, content, padding))) ==
              Some(Envelope(Printed(charRef, content), Spaced(e.from), Spaced(e.to), TimeReadBack(e.time)))
  {
    EveryNestedStreamIsRead(charRef, EnvelopeTree(e, content, padding));
    ReadInside(charRef, e, content, padding);
    var f := EnvelopeTree(e, content, padding);
    assert Read(charRef, BLANK.envelope, f) == ReadNode(charRef, BLANK.envelope, f.last);
  }

  /** Main result: the text written for an envelope is the text of a stream that is read back as that
      envelope, if and only if no affix holds a tab or a line end, the time stamp is not empty, and the
      content is canonical. */
  lemma RoundTripIff(charRef: CharRef, e: Envelope, content: Forest, padding: string)
    requires CharRefLaw(charRef) && WellFormed(content) && e.contentInner == Serialized(content)
    ensures Serialized(EnvelopeTree(e, content, padding)) == Written(e, padding)
    ensures Parsed(charRef, Events(EnvelopeTree(e, content, padding))) == Some(e) <==>
              && NoBreaks(e.from) && NoBreaks(e.to)
              && (e.time.Some? ==> e.time.value != "" && NoBreaks(e.time.value))
              && Canonical(charRef, content)
  {
    WrittenIsTheTree(e, content, padding);
    WrittenEnvelopeIsRead(charRef, e, content, padding);
    KeptAsSentIff(charRef, content);
    SpacedIffNoBreaks(e.from);
    SpacedIffNoBreaks(e.to);
    if e.time.Some? {
      SpacedIffNoBreaks(e.time.value);
    }
  }

  // ---- body --------------------------------------------------------------

  /** `str::find`: where `pattern` first occurs. */
  function Find(s: string, pattern: string): Option<nat>
    ensures Find(s, pattern).Some? ==> Find(s, pattern).value + |pattern| <= |s|
  {
    if |s| < |pattern| then None
    else if pattern <= s then Some(0)
    else
      match Find(s[1..], pattern)
      case Some(i) => Some(i + 1)
      case None => None
  }

  function Body(charRef: CharRef, content: string): Option<string> {
    match Find(content, "<body")
    case None => None
    case Some(open) =>
      match Find(content[open..], ">")
      case None => None
      case Some(gt) =>
        var rest := content[open + gt + 1..];
        match Find(rest, "</body>")
        case None => None
        case Some(close) => Some(Unescape(charRef, rest[..close]))
  }

  const BODY_TAG: string := Opening("body", Quoted("xmlns", "jabber:client"))

  function NewEnvelope(body: string, from: string, to: string, time: Option<string>, extraContent: string): Envelope {
    Envelope(BODY_TAG + Escape(body) + Closing("body") + extraContent, from, to, time)
  }

  lemma {:induction false} FindFirst(a: string, pattern: string, b: string)
    requires pattern != "" && pattern[0] !in a
    ensures Find(a + pattern + b, pattern) == Some(|a|)
  {
    if a == "" {
      assert a + pattern + b == pattern + b;
    } else {
      var s := a + pattern + b;
      assert s[0] == a[0];
      assert s[1..] == a[1..] + pattern + b;
      FindFirst(a[1..], pattern, b);
    }
  }

  lemma BodyTagParts(rest: string)
    ensures Find(BODY_TAG + rest, "<body") == Some(0)
    ensures Find(BODY_TAG + rest, ">") == Some(|BODY_TAG| - 1)
  {
    var open := "<" + "body" + Quoted("xmlns", "jabber:client");
    assert BODY_TAG + rest == open + ">" + rest;
    assert '>' !in Quoted("xmlns", "jabber:client");
    FindFirst(open, ">", rest);
    assert "<body" <= BODY_TAG + rest;
  }

  lemma BodyWithin(charRef: CharRef, inner: string, extraContent: string)
    requires '<' !in inner
    ensures Body(charRef, BODY_TAG + (inner + Closing("body") + extraContent)) == Some(Unescape(charRef, inner))
  {
    var tail := inner + Closing("body") + extraContent;
    var s := BODY_TAG + tail;
    BodyTagParts(tail);
    assert s[0..] == s && s[|BODY_TAG|..] == tail;
    assert Closing("body") == "</body>";
    FindFirst(inner, Closing("body"), extraContent);
    assert tail[..|inner|] == inner;
  }

  /** The body of an envelope is what it was made from, whatever else the content holds. */
  lemma BodyOfNew(charRef: CharRef, body: string, extraContent: string)
    ensures Body(charRef, BODY_TAG + Escape(body) + Closing("body") + extraContent) == Some(body)
  {
    var inner := Escape(body);
    NothingSpecialIsLeft(body);
    ResolvingUndoesEscaping(charRef, body);
    BodyWithin(charRef, inner, extraContent);
    Grouped(BODY_TAG, inner, Closing("body"), extraContent);
  }

  predicate TextOnly(f: Forest) {
    match f
    case Nothing => true
    case Then(before, last) => TextOnly(before) && (last.Text? || last.Reference?)
  }

  lemma {:induction false} TextIsKept(charRef: CharRef, f: Forest)
    requires TextOnly(f)
    ensures Printed(charRef, f) == Serialized(f)
  {
    if f.Then? {
      TextIsKept(charRef, f.before);
    }
  }

  function Append(f: Forest, g: Forest): Forest {
    match g
    case Nothing => f
    case Then(before, last) => Then(Append(f, before), last)
  }

  lemma {:induction false} AppendPrints(charRef: CharRef, f: Forest, g: Forest)
    ensures Printed(charRef, Append(f, g)) == Printed(charRef, f) + Printed(charRef, g)
    ensures Serialized(Append(f, g)) == Serialized(f) + Serialized(g)
  {
    match g
    case Nothing =>
      assert Printed(charRef, f) + "" == Printed(charRef, f) && Serialized(f) + "" == Serialized(f);
    case Then(before, last) =>
      AppendPrints(charRef, f, before);
      Associate(Printed(charRef, f), Printed(charRef, before), PrintedNode(charRef, last));
      Associate(Serialized(f), Serialized(before), SerializedNode(last));
  }

  predicate NothingToEscape(s: string) {
    forall i :: 0 <= i < |s| ==> EscapedChar(s[i]) == [s[i]]
  }

  lemma {:induction false} EscapeOfPlain(s: string)
    requires NothingToEscape(s)
    ensures Escape(s) == s
  {
    if s != "" {
      EscapeOfPlain(s[1..]);
      assert [s[0]] + s[1..] == s;
    }
  }

  lemma PlainIsKept(charRef: CharRef, s: string)
    requires NothingToEscape(s) && NoBreaks(s)
    ensures Rewritten(charRef, s) == s
  {
    EscapeOfPlain(s);
    EscapedAttribute(charRef, s);
    SpacedIffNoBreaks(s);
  }

  const NS_CLIENT: string := "jabber:client"
  const BODY_ATTRIBUTES: Attributes := [Plain("xmlns", NS_CLIENT)]

  lemma ClientNamespaceIsPlain()
    ensures NothingToEscape(NS_CLIENT) && NoBreaks(NS_CLIENT)
  {
  }

  lemma NamespaceIsKept(charRef: CharRef)
    ensures RewrittenAttributes(charRef, BODY_ATTRIBUTES) == BODY_ATTRIBUTES
    ensures AttributesText(BODY_ATTRIBUTES) + "" == AttributesText(BODY_ATTRIBUTES) == Quoted("xmlns", NS_CLIENT)
  {
    ClientNamespaceIsPlain();
    PlainIsKept(charRef, NS_CLIENT);
    assert BODY_ATTRIBUTES[0].raw == NS_CLIENT;
    OneAttribute("xmlns", NS_CLIENT);
  }

  /** A body element whose text is divided into `text`, then more content. */
  function BodyAndMore(text: Forest, extra: Forest): Forest {
    Append(Then(Nothing, Element("body", BODY_ATTRIBUTES, "", text, "")), extra)
  }

  lemma BodyText(charRef: CharRef, text: Forest)
    requires TextOnly(text)
    ensures var n := Element("body", BODY_ATTRIBUTES, "", text, "");
            PrintedNode(charRef, n) == SerializedNode(n) == BODY_TAG + Serialized(text) + Closing("body")
  {
    hide Serialized, Printed, RewrittenAttributes, AttributesText;
    NamespaceIsKept(charRef);
    TextIsKept(charRef, text);
    assert "body" + "" == "body";
  }

  lemma BodyAndMoreText(charRef: CharRef, text: Forest, extra: Forest)
    requires TextOnly(text)
    ensures Printed(charRef, BodyAndMore(text, extra))
              == BODY_TAG + Serialized(text) + Closing("body") + Printed(charRef, extra)
    ensures Serialized(BodyAndMore(text, extra))
              == BODY_TAG + Serialized(text) + Closing("body") + Serialized(extra)
  {
    var element := Element("body", BODY_ATTRIBUTES, "", text, "");
    hide PrintedNode, SerializedNode, Printed, Serialized;
    BodyText(charRef, text);
    AppendPrints(charRef, Then(Nothing, element), extra);
    FirstText(element);
    FirstKept(charRef, element);
  }

  lemma FirstKept(charRef: CharRef, n: Node)
    ensures Printed(charRef, Then(Nothing, n)) == PrintedNode(charRef, n)
  {
    assert "" + PrintedNode(charRef, n) == PrintedNode(charRef, n);
  }

  /** Main result: for every body and every further content, the message that is written is read back
      with exactly this body, however the tokenizer divides the escaped text into events. */
  lemma BodySurvives(charRef: CharRef, body: string, from: string, to: string, time: Option<string>,
                     text: Forest, extra: Forest, padding: string)
    requires TextOnly(text) && Serialized(text) == Escape(body)
    ensures var e := NewEnvelope(body, from, to, time, Serialized(extra));
            var tree := EnvelopeTree(e, BodyAndMore(text, extra), padding);
            var r := Parsed(charRef, Events(tree));
            && Serialized(tree) == Written(e, padding)
            && r.Some? && Body(charRef, r.value.contentInner) == Some(body)
  {
    var e := NewEnvelope(body, from, to, time, Serialized(extra));
    var content := BodyAndMore(text, extra);
    BodyAndMoreText(charRef, text, extra);
    WrittenIsTheTree(e, content, padding);
    WrittenEnvelopeIsRead(charRef, e, content, padding);
    BodyOfNew(charRef, body, Printed(charRef, extra));
  }
}
