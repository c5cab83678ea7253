/**
  The content that the reader keeps: when it is the text that was sent, and when reading it a second
  time changes it.
 */
module SceCanonical {
  import opened Wrappers
  import opened XmlText
  import opened Sce

  // ---- what the tokenizer can deliver -------------------------------------

  predicate IsSpace(c: char) {
    c == ' ' || IsBreak(c)
  }

  predicate AllSpace(s: string) {
    forall i :: 0 <= i < |s| ==> IsSpace(s[i])
  }

  /** White space, a name, an equals sign that may stand in white space, and a value without the mark
      that ends it. */
  predicate AttributeOk(a: Attribute) {
    && a.lead != "" && AllSpace(a.lead)
    && a.name != "" && !IsSpace(a.name[0])
    && AllSpace(a.left) && AllSpace(a.right)
    && (a.mark == '\'' || a.mark == '\"') && a.mark !in a.raw
  }

  predicate AttributesOk(attributes: Attributes) {
    forall i :: 0 <= i < |attributes| ==> AttributeOk(attributes[i])
  }

  /** How comments, CDATA sections, declarations and processing instructions begin. */
  predicate IsMarkup(s: string) {
    |s| >= 2 && s[0] == '<' && (s[1] == '!' || s[1] == '?')
  }

  predicate NameOk(name: string) {
    name != "" && name[0] != '!' && name[0] != '?' && name[0] != '/'
  }

  predicate WellFormed(f: Forest)
    decreases f
  {
    match f
    case Nothing => true
    case Then(before, last) => WellFormed(before) && NodeOk(last)
  }

  predicate NodeOk(n: Node)
    decreases n
  {
    match n
    case Element(name, attributes, gap, children, closingGap) =>
      NameOk(name) && AttributesOk(attributes) && AllSpace(gap) && WellFormed(children) && AllSpace(closingGap)
    case Single(name, attributes, gap) => NameOk(name) && AttributesOk(attributes) && AllSpace(gap)
    case Text(text) => '<' !in text
    case Reference(name) => true
    case Ignored(text) => IsMarkup(text)
  }

  // ---- the form the reader writes -----------------------------------------

  predicate AttributeCanonical(charRef: CharRef, a: Attribute) {
    a == Plain(a.name, a.raw) && Rewritten(charRef, a.raw) == a.raw
  }

  predicate AttributesCanonical(charRef: CharRef, attributes: Attributes) {
    forall i :: 0 <= i < |attributes| ==> AttributeCanonical(charRef, attributes[i])
  }

  /** One space before every attribute, no other white space in a tag, values in apostrophes and
      escaped as the reader escapes them, and nothing that the reader drops. */
  predicate Canonical(charRef: CharRef, f: Forest)
    decreases f
  {
    match f
    case Nothing => true
    case Then(before, last) => Canonical(charRef, before) && NodeCanonical(charRef, last)
  }

  predicate NodeCanonical(charRef: CharRef, n: Node)
    decreases n
  {
    match n
    case Element(_, attributes, gap, children, closingGap) =>
      AttributesCanonical(charRef, attributes) && gap == "" && Canonical(charRef, children) && closingGap == ""
    case Single(_, attributes, gap) => AttributesCanonical(charRef, attributes) && gap == ""
    case Text(_) => true
    case Reference(_) => true
    case Ignored(_) => false
  }

  // ---- cancelling from the left -------------------------------------------

  lemma Associate(a: string, b: string, c: string)
    ensures a + b + c == a + (b + c)
  {
  }

  lemma SamePrefix(a: string, s: string, t: string)
    requires a + s == a + t
    ensures s == t
  {
    assert (a + s)[|a|..] == s;
    assert (a + t)[|a|..] == t;
  }

  /** The text up to the first `c` is determined by the whole. */
  lemma SameUpTo(a: string, b: string, c: char, s: string, t: string)
    requires c !in a && c !in b && a + [c] + s == b + [c] + t
    ensures a == b && s == t
  {
    var u := a + [c] + s;
    assert u[|a|] == c && u[|b|] == c;
    assert forall i :: 0 <= i < |a| ==> u[i] == a[i] && a[i] in a;
    assert forall i :: 0 <= i < |b| ==> u[i] == b[i] && b[i] in b;
    assert a == u[..|a|] == b;
    assert s == u[|a| + 1..] == t;
  }

  /** White space before a character that is none. */
  lemma NoGap(gap: string, c: char, d: char, s: string, t: string)
    requires AllSpace(gap) && !IsSpace(d) && gap + [c] + s == [d] + t
    ensures gap == "" && c == d && s == t
  {
    assert IsSpace((gap + [c] + s)[0]) || gap == "";
    SamePrefix([c], s, t);
  }

  lemma OneSpace(lead: string, name: string, s: string, t: string)
    requires lead != "" && AllSpace(lead) && name != "" && !IsSpace(name[0])
    requires lead + (name + s) == " " + (name + t)
    ensures lead == " " && s == t
  {
    var u := lead + (name + s);
    assert u[0] == lead[0] && u[1] == if |lead| > 1 then lead[1] else name[0];
    SamePrefix(" ", name + s, name + t);
    SamePrefix(name, s, t);
  }

  lemma AttributeParts(a: Attribute, s: string)
    ensures AttributeText(a) + s
              == a.lead + (a.name + (a.left + ['='] + (a.right + [a.mark] + (a.raw + [a.mark] + s))))
  {
  }

  lemma PlainParts(name: string, raw: string, s: string)
    ensures AttributeText(Plain(name, raw)) + s == " " + (name + (['='] + (['\''] + (raw + ['\''] + s))))
  {
  }

  lemma SameAttribute(charRef: CharRef, a: Attribute, s: string, t: string)
    requires CharRefLaw(charRef) && AttributeOk(a)
    requires AttributeText(a) + s == AttributeText(Plain(a.name, Rewritten(charRef, a.raw))) + t
    ensures AttributeCanonical(charRef, a) && s == t
  {
    hide AttributeText, Rewritten, CharRefLaw;
    var again := Rewritten(charRef, a.raw);
    RewrittenAttribute(charRef, a.raw);
    AttributeParts(a, s);
    PlainParts(a.name, again, t);
    var s2, t2 := a.raw + [a.mark] + s, again + ['\''] + t;
    var s1, t1 := a.right + [a.mark] + s2, ['\''] + t2;
    OneSpace(a.lead, a.name, a.left + ['='] + s1, ['='] + t1);
    NoGap(a.left, '=', '=', s1, t1);
    NoGap(a.right, a.mark, '\'', s2, t2);
    SameUpTo(a.raw, again, '\'', s, t);
  }

  lemma LastAttribute(charRef: CharRef, attributes: Attributes)
    requires attributes != []
    ensures var k := |attributes| - 1;
            && AttributesText(attributes) == AttributesText(attributes[..k]) + AttributeText(attributes[k])
            && KeptAttributes(charRef, attributes) == KeptAttributes(charRef, attributes[..k])
                 + AttributeText(Plain(attributes[k].name, Rewritten(charRef, attributes[k].raw)))
  {
    hide AttributeText, Rewritten;
    var k := |attributes| - 1;
    assert RewrittenAttributes(charRef, attributes)[..k] == RewrittenAttributes(charRef, attributes[..k]);
  }

  lemma {:induction false} SameAttributes(charRef: CharRef, attributes: Attributes, s: string, t: string)
    requires CharRefLaw(charRef) && AttributesOk(attributes)
    requires AttributesText(attributes) + s == KeptAttributes(charRef, attributes) + t
    ensures AttributesCanonical(charRef, attributes) && s == t
    decreases |attributes|
  {
    hide AttributeText, AttributeOk, AttributeCanonical, CharRefLaw, Rewritten;
    if attributes != [] {
      var k := |attributes| - 1;
      var front, last := attributes[..k], attributes[k];
      var text, kept := AttributeText(last), AttributeText(Plain(last.name, Rewritten(charRef, last.raw)));
      LastAttribute(charRef, attributes);
      Associate(AttributesText(front), text, s);
      Associate(KeptAttributes(charRef, front), kept, t);
      SameAttributes(charRef, front, text + s, kept + t);
      SameAttribute(charRef, last, s, t);
      assert attributes == front + [last];
    } else {
      assert "" + s == s && "" + t == t;
    }
  }

  lemma CanonicalAttributes(charRef: CharRef, attributes: Attributes)
    requires AttributesCanonical(charRef, attributes)
    ensures RewrittenAttributes(charRef, attributes) == attributes
  {
  }

  /** Tags end in `>` or `/>` after their white space. */
  lemma SameTag(charRef: CharRef, name: string, attributes: Attributes, gap: string, end: char, s: string, t: string)
    requires CharRefLaw(charRef) && AttributesOk(attributes) && AllSpace(gap) && !IsSpace(end)
    requires "<" + name + (AttributesText(attributes) + gap) + [end] + s
               == "<" + name + KeptAttributes(charRef, attributes) + [end] + t
    ensures AttributesCanonical(charRef, attributes) && gap == "" && s == t
  {
    hide AttributesText, KeptAttributes, CharRefLaw, AttributesOk, AttributesCanonical;
    var text, kept := AttributesText(attributes), KeptAttributes(charRef, attributes);
    assert "<" + name + (text + gap) + [end] + s == ("<" + name) + (text + (gap + [end] + s));
    assert "<" + name + kept + [end] + t == ("<" + name) + (kept + ([end] + t));
    SamePrefix("<" + name, text + (gap + [end] + s), kept + ([end] + t));
    SameAttributes(charRef, attributes, gap + [end] + s, [end] + t);
    NoGap(gap, end, end, s, t);
  }

  // ---- what the reader keeps never begins like something it drops ----------

  lemma PlainStart(s: string, t: string)
    requires '<' !in s && !IsMarkup(t)
    ensures !IsMarkup(s + t)
  {
    assert s == "" ==> s + t == t;
    assert s != "" ==> (s + t)[0] == s[0];
  }

  lemma TagStart(name: string, s: string)
    requires NameOk(name)
    ensures !IsMarkup("<" + name + s) && !IsMarkup("</" + s)
  {
    assert ("<" + name + s)[1] == name[0];
    assert ("</" + s)[1] == '/';
  }

  lemma KeptNodeStart(charRef: CharRef, n: Node, t: string)
    requires NodeOk(n) && !IsMarkup(t)
    ensures !IsMarkup(PrintedNode(charRef, n) + t)
  {
    hide KeptAttributes, Printed, IsMarkup;
    match n
    case Element(name, attributes, _, children, _) =>
      var rest := KeptAttributes(charRef, attributes) + ">" + Printed(charRef, children) + Closing(name) + t;
      TagStart(name, rest);
      assert PrintedNode(charRef, n) + t == "<" + name + rest;
    case Single(name, attributes, _) =>
      var rest := KeptAttributes(charRef, attributes) + "/>" + t;
      TagStart(name, rest);
      assert PrintedNode(charRef, n) + t == "<" + name + rest;
    case Text(text) => PlainStart(text, t);
    case Reference(name) =>
      assert "&" + name + ";" + t == "&" + (name + ";" + t);
      PlainReferenceStart(name + ";" + t);
    case Ignored(_) => assert "" + t == t;
  }

  lemma PlainReferenceStart(s: string)
    ensures !IsMarkup("&" + s)
  {
  }

  // ---- the text is kept exactly when it is canonical ----------------------

  lemma {:induction false} SameText(charRef: CharRef, f: Forest, s: string, t: string)
    requires CharRefLaw(charRef) && WellFormed(f) && !IsMarkup(t)
    requires Serialized(f) + s == Printed(charRef, f) + t
    ensures Canonical(charRef, f) && s == t
    decreases f
  {
    hide CharRefLaw, IsMarkup;
    match f
    case Nothing => assert "" + s == s && "" + t == t;
    case Then(before, last) =>
      var s', t' := SerializedNode(last) + s, PrintedNode(charRef, last) + t;
      Associate(Serialized(before), SerializedNode(last), s);
      Associate(Printed(charRef, before), PrintedNode(charRef, last), t);
      KeptNodeStart(charRef, last, t);
      SameText(charRef, before, s', t');
      SameNode(charRef, last, s, t);
  }

  lemma {:induction false} SameNode(charRef: CharRef, n: Node, s: string, t: string)
    requires CharRefLaw(charRef) && NodeOk(n) && !IsMarkup(t)
    requires SerializedNode(n) + s == PrintedNode(charRef, n) + t
    ensures NodeCanonical(charRef, n) && s == t
    decreases n
  {
    match n
    case Element(_, _, _, _, _) => SameElement(charRef, n, s, t);
    case Single(_, _, _) => SameSingle(charRef, n, s, t);
    case Text(text) => SamePrefix(text, s, t);
    case Reference(name) => SamePrefix("&" + name + ";", s, t);
    case Ignored(text) =>
      assert "" + t == t;
      MarkupStart(text, s);
      assert false;
  }

  lemma SingleParts(name: string, attributes: string, s: string)
    ensures Childless(name, attributes) + s == "<" + name + attributes + ['/'] + (">" + s)
  {
  }

  lemma SameSingle(charRef: CharRef, n: Node, s: string, t: string)
    requires n.Single? && CharRefLaw(charRef) && NodeOk(n)
    requires SerializedNode(n) + s == PrintedNode(charRef, n) + t
    ensures NodeCanonical(charRef, n) && s == t
  {
    hide CharRefLaw, AttributesText, KeptAttributes, AttributesOk, AttributesCanonical, Childless;
    SingleParts(n.name, AttributesText(n.attributes) + n.gap, s);
    SingleParts(n.name, KeptAttributes(charRef, n.attributes), t);
    SameTag(charRef, n.name, n.attributes, n.gap, '/', ">" + s, ">" + t);
    SamePrefix(">", s, t);
  }

  lemma MarkupStart(text: string, s: string)
    requires IsMarkup(text)
    ensures IsMarkup(text + s)
  {
  }

  lemma ElementParts(open: string, name: string, inner: string, gap: string, s: string)
    ensures Opening(name, open) + inner + Closing(name + gap) + s
              == "<" + name + open + ['>'] + (inner + ("</" + (name + (gap + ['>'] + s))))
  {
  }

  /** The opening tag cancelled. */
  lemma SameOpening(charRef: CharRef, n: Node, s: string, t: string)
    requires n.Element? && CharRefLaw(charRef) && NodeOk(n)
    requires SerializedNode(n) + s == PrintedNode(charRef, n) + t
    ensures AttributesCanonical(charRef, n.attributes) && n.gap == ""
    ensures Serialized(n.children) + ("</" + (n.name + (n.closingGap + ['>'] + s)))
              == Printed(charRef, n.children) + ("</" + (n.name + (['>'] + t)))
  {
    hide CharRefLaw, WellFormed, Printed, Serialized, Opening, Closing;
    hide AttributesText, KeptAttributes, AttributesOk, AttributesCanonical;
    var text, kept := AttributesText(n.attributes) + n.gap, KeptAttributes(charRef, n.attributes);
    var inner, inside := Serialized(n.children), Printed(charRef, n.children);
    ElementParts(text, n.name, inner, n.closingGap, s);
    ElementParts(kept, n.name, inside, "", t);
    assert n.name + "" == n.name && "" + ['>'] + t == ['>'] + t;
    var s1, t1 := inner + ("</" + (n.name + (n.closingGap + ['>'] + s))), inside + ("</" + (n.name + (['>'] + t)));
    SameTag(charRef, n.name, n.attributes, n.gap, '>', s1, t1);
  }

  /** The closing tag cancelled. */
  lemma SameClosing(name: string, gap: string, s: string, t: string)
    requires AllSpace(gap)
    requires "</" + (name + (gap + ['>'] + s)) == "</" + (name + (['>'] + t))
    ensures gap == "" && s == t
  {
    SamePrefix("</", name + (gap + ['>'] + s), name + (['>'] + t));
    SamePrefix(name, gap + ['>'] + s, ['>'] + t);
    NoGap(gap, '>', '>', s, t);
  }

  lemma {:induction false} SameElement(charRef: CharRef, n: Node, s: string, t: string)
    requires n.Element?
    requires CharRefLaw(charRef) && NodeOk(n) && !IsMarkup(t)
    requires SerializedNode(n) + s == PrintedNode(charRef, n) + t
    ensures NodeCanonical(charRef, n) && s == t
    decreases n, 0
  {
    SameOpening(charRef, n, s, t);
    hide CharRefLaw, IsMarkup, Printed, Serialized, PrintedNode, SerializedNode, AttributesOk, AttributesCanonical;
    var s1, t1 := "</" + (n.name + (n.closingGap + ['>'] + s)), "</" + (n.name + (['>'] + t));
    TagStart(n.name, n.name + (['>'] + t));
    SameText(charRef, n.children, s1, t1);
    SameClosing(n.name, n.closingGap, s, t);
  }

  lemma {:induction false} CanonicalIsKept(charRef: CharRef, f: Forest)
    requires Canonical(charRef, f)
    ensures Printed(charRef, f) == Serialized(f)
    decreases f
  {
    if f.Then? {
      CanonicalIsKept(charRef, f.before);
      CanonicalNodeIsKept(charRef, f.last);
    }
  }

  lemma {:induction false} CanonicalNodeIsKept(charRef: CharRef, n: Node)
    requires NodeCanonical(charRef, n)
    ensures PrintedNode(charRef, n) == SerializedNode(n)
    decreases n
  {
    if n.Element? {
      CanonicalAttributes(charRef, n.attributes);
      CanonicalIsKept(charRef, n.children);
      assert n.name + "" == n.name && AttributesText(n.attributes) + "" == AttributesText(n.attributes);
    } else if n.Single? {
      CanonicalAttributes(charRef, n.attributes);
      assert AttributesText(n.attributes) + "" == AttributesText(n.attributes);
    }
  }

  /** Main result: the reader keeps content as the text that was sent exactly when it is canonical. */
  lemma KeptAsSentIff(charRef: CharRef, f: Forest)
    requires CharRefLaw(charRef) && WellFormed(f)
    ensures Printed(charRef, f) == Serialized(f) <==> Canonical(charRef, f)
  {
    if Printed(charRef, f) == Serialized(f) {
      SameText(charRef, f, "", "");
    } else if Canonical(charRef, f) {
      CanonicalIsKept(charRef, f);
    }
  }

  // ---- reading what was kept ----------------------------------------------

  /** What is kept of content, as a tree again. */
  function Rewrite(charRef: CharRef, f: Forest): Forest
    decreases f
  {
    match f
    case Nothing => Nothing
    case Then(before, last) =>
      if last.Ignored? then Rewrite(charRef, before)
      else Then(Rewrite(charRef, before), RewriteNode(charRef, last))
  }

  function RewriteNode(charRef: CharRef, n: Node): Node
    decreases n
  {
    match n
    case Element(name, attributes, _, children, _) =>
      Element(name, RewrittenAttributes(charRef, attributes), "", Rewrite(charRef, children), "")
    case Single(name, attributes, _) => Single(name, RewrittenAttributes(charRef, attributes), "")
    case _ => n
  }

  predicate AttributesSurvive(charRef: CharRef, attributes: Attributes) {
    forall i :: 0 <= i < |attributes| ==>
      match Normalized(charRef, attributes[i].raw) case Some(v) => NoBreaks(v) case None => true
  }

  /** No attribute value anywhere holds a tab or line end once decoded. */
  predicate Survives(charRef: CharRef, f: Forest)
    decreases f
  {
    match f
    case Nothing => true
    case Then(before, last) => Survives(charRef, before) && NodeSurvives(charRef, last)
  }

  predicate NodeSurvives(charRef: CharRef, n: Node)
    decreases n
  {
    match n
    case Element(_, attributes, _, children, _) => AttributesSurvive(charRef, attributes) && Survives(charRef, children)
    case Single(_, attributes, _) => AttributesSurvive(charRef, attributes)
    case _ => true
  }

  lemma SpacesOnly()
    ensures AllSpace(" ") && AllSpace("")
  {
  }

  lemma RewrittenAttributesAreOk(charRef: CharRef, attributes: Attributes)
    requires CharRefLaw(charRef) && AttributesOk(attributes)
    ensures var again := RewrittenAttributes(charRef, attributes);
            AttributesOk(again) && (AttributesCanonical(charRef, again) <==> AttributesSurvive(charRef, attributes))
  {
    hide Rewritten, Normalized, CharRefLaw;
    var again := RewrittenAttributes(charRef, attributes);
    SpacesOnly();
    forall i | 0 <= i < |attributes|
      ensures AttributeOk(again[i])
      ensures AttributeCanonical(charRef, again[i]) <==>
                match Normalized(charRef, attributes[i].raw) case Some(v) => NoBreaks(v) case None => true
    {
      assert AttributeOk(attributes[i]);
      RewrittenAttribute(charRef, attributes[i].raw);
    }
  }

  /** What is kept is the text of a tree that is canonical exactly when the values survive. */
  lemma {:induction false} KeptIsATree(charRef: CharRef, f: Forest)
    requires CharRefLaw(charRef) && WellFormed(f)
    ensures var g := Rewrite(charRef, f);
            Serialized(g) == Printed(charRef, f) && WellFormed(g) && (Canonical(charRef, g) <==> Survives(charRef, f))
    decreases f
  {
    hide CharRefLaw, IsMarkup;
    match f
    case Nothing =>
    case Then(before, last) =>
      KeptIsATree(charRef, before);
      if last.Ignored? {
        assert Printed(charRef, before) + "" == Printed(charRef, before);
      } else {
        KeptNodeIsATree(charRef, last);
      }
  }

  lemma {:induction false} KeptNodeIsATree(charRef: CharRef, n: Node)
    requires CharRefLaw(charRef) && NodeOk(n) && !n.Ignored?
    ensures var m := RewriteNode(charRef, n);
            && SerializedNode(m) == PrintedNode(charRef, n) && NodeOk(m)
            && (NodeCanonical(charRef, m) <==> NodeSurvives(charRef, n))
    decreases n
  {
    hide CharRefLaw, AttributesText, RewrittenAttributes, AttributesOk, AttributesCanonical, AttributesSurvive;
    SpacesOnly();
    match n
    case Element(name, attributes, _, children, _) =>
      KeptIsATree(charRef, children);
      RewrittenAttributesAreOk(charRef, attributes);
      assert name + "" == name && KeptAttributes(charRef, attributes) + "" == KeptAttributes(charRef, attributes);
    case Single(name, attributes, _) =>
      RewrittenAttributesAreOk(charRef, attributes);
      assert KeptAttributes(charRef, attributes) + "" == KeptAttributes(charRef, attributes);
    case Text(_) =>
    case Reference(_) =>
  }

  /** Main result: the content that the reader keeps is the text of a tree with the same elements and
      texts, and reading it again changes nothing if and only if no decoded attribute value holds a tab
      or a line end. */
  lemma KeptContentIsStableIff(charRef: CharRef, f: Forest)
    requires CharRefLaw(charRef) && WellFormed(f)
    ensures var g := Rewrite(charRef, f);
            && WellFormed(g) && Serialized(g) == Printed(charRef, f)
            && (Printed(charRef, g) == Printed(charRef, f) <==> Survives(charRef, f))
  {
    KeptIsATree(charRef, f);
    KeptAsSentIff(charRef, Rewrite(charRef, f));
  }

  lemma LineFeedIsDecoded(charRef: CharRef)
    requires charRef("#10") == Some("\n")
    ensures Normalized(charRef, "&#10;") == Some("\n")
  {
    var name, raw := "#10", "&#10;";
    SpacedIffNoBreaks(raw);
    assert ';' !in name && '&' !in name && "&" + name + ";" + "" == raw;
    hide Spaced, Resolved;
    ResolvedReference(charRef, name, "");
    assert Resolved(charRef, "") == Some("") by {
      NothingResolved(charRef);
    }
    assert "\n" + "" == "\n";
  }

  lemma NothingResolved(charRef: CharRef)
    ensures Resolved(charRef, "") == Some("")
  {
  }

  lemma LineFeedIsRewritten(charRef: CharRef)
    requires charRef("#10") == Some("\n")
    ensures Rewritten(charRef, "&#10;") == "\n" && Rewritten(charRef, "\n") == " "
  {
    assert Escape("\n") == "\n" && Escape(" ") == " " && Spaced("\n") == " ";
    hide Escape, Spaced, Normalized;
    LineFeedIsDecoded(charRef);
    EscapedAttribute(charRef, "\n");
  }

  function OneTag(raw: string): Forest {
    Then(Nothing, Single("x", [Plain("a", raw)], ""))
  }

  lemma OneTagText(charRef: CharRef, raw: string)
    ensures Serialized(OneTag(raw)) == Childless("x", Quoted("a", raw))
    ensures Rewrite(charRef, OneTag(raw)) == OneTag(Rewritten(charRef, raw))
  {
    hide Rewritten, Quoted, AttributeText, Childless;
    var one := [Plain("a", raw)];
    assert one[..0] == [];
    PlainText("a", raw);
    var text, tag := Quoted("a", raw), Childless("x", Quoted("a", raw));
    assert "" + text == text && text + "" == text && "" + tag == tag;
    assert AttributesText(one) == text;
    assert SerializedNode(OneTag(raw).last) == tag;
    assert RewrittenAttributes(charRef, one) == [Plain("a", Rewritten(charRef, raw))];
  }

  /** A line feed written as a reference is kept as a line feed, which the next reading makes a space. */
  lemma LineFeedInAnAttribute(charRef: CharRef)
    requires CharRefLaw(charRef) && charRef("#10") == Some("\n")
    ensures var f := OneTag("&#10;");
            var g := Rewrite(charRef, f);
            && WellFormed(f) && Serialized(f) == Childless("x", Quoted("a", "&#10;"))
            && Printed(charRef, f) == Serialized(g) == Childless("x", Quoted("a", "\n"))
            && Printed(charRef, g) == Childless("x", Quoted("a", " "))
  {
    hide Serialized, Printed, Rewritten, Rewrite, CharRefLaw;
    var f, g := OneTag("&#10;"), OneTag("\n");
    LineFeedIsRewritten(charRef);
    OneTagText(charRef, "&#10;");
    OneTagText(charRef, "\n");
    OneTagText(charRef, " ");
    SpacesOnly();
    assert WellFormed(f) && WellFormed(g);
    KeptIsATree(charRef, f);
    KeptIsATree(charRef, g);
  }
}
