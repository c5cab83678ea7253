/**
  The encrypted envelope of stanza content (XEP-0420): writing it with its padding, reading it from an
  event stream, and getting the body out of it.

  A string is its UTF-8 bytes. Dividing the text into events is quick-xml's part: `Serialized` says
  which text an event stream stands for.
 */
module Sce {
  import opened Wrappers
  import opened XmlText

  /** An attribute as it stands in a tag: white space, the name, an equals sign with white space to its
      left and right, and the raw value between two quotation marks. */
  datatype Attribute = Attribute(lead: string, name: string, left: string, right: string, mark: char, raw: string)

  /** In document order. */
  type Attributes = seq<Attribute>

  datatype Event =
    | Start(name: string, attributes: Attributes)
    | End(name: string)
    | Empty(name: string, attributes: Attributes)
    | Chars(text: string)
    | GeneralRef(name: string)
    | Other          // comment, CDATA, declaration, processing instruction
    | Malformed      // the reader reports an error

  datatype Envelope = Envelope(contentInner: string, from: string, to: string, time: Option<string>)

  const NS_SCE: string := "urn:xmpp:sce:1"
  const PAD_BUCKET: nat := 256

  // ---- attributes --------------------------------------------------------

  function Raw(attributes: Attributes, key: string): Option<string> {
    if attributes == [] then None
    else if attributes[0].name == key then Some(attributes[0].raw)
    else Raw(attributes[1..], key)
  }

  /** `attr_str`: the decoded value; the raw one when it cannot be decoded; empty when missing. */
  function AttrStr(charRef: CharRef, attributes: Attributes, key: string): string {
    match Raw(attributes, key)
    case None => ""
    case Some(raw) =>
      match Normalized(charRef, raw)
      case Some(v) => v
      case None => raw
  }

  function AttributeText(a: Attribute): string {
    a.lead + a.name + (a.left + "=" + a.right + [a.mark]) + a.raw + [a.mark]
  }

  function AttributesText(attributes: Attributes): string {
    if attributes == [] then ""
    else AttributesText(attributes[..|attributes| - 1]) + AttributeText(attributes[|attributes| - 1])
  }

  function Plain(name: string, raw: string): Attribute {
    Attribute(" ", name, "", "", '\'', raw)
  }

  function Quoted(name: string, raw: string): string {
    " " + name + "='" + raw + "'"
  }

  lemma PlainText(name: string, raw: string)
    ensures AttributeText(Plain(name, raw)) == Quoted(name, raw)
  {
    assert "" + "=" + "" + ['\''] == "='";
  }

  function RewrittenAttributes(charRef: CharRef, attributes: Attributes): (r: Attributes)
    ensures |r| == |attributes|
  {
    seq(|attributes|, i requires 0 <= i < |attributes| =>
      Plain(attributes[i].name, Rewritten(charRef, attributes[i].raw)))
  }

  method AttrsStr(charRef: CharRef, attributes: Attributes) returns (s: string)
    ensures s == AttributesText(RewrittenAttributes(charRef, attributes))
  {
    s := "";
    ghost var all := RewrittenAttributes(charRef, attributes);
    for i := 0 to |attributes|
      invariant s == AttributesText(all[..i])
    {
      var value := match Normalized(charRef, attributes[i].raw)
                   case Some(v) => Escape(v)
                   case None => ReplaceApostrophes(attributes[i].raw);
      assert all[..i + 1][..i] == all[..i] && all[..i + 1][i] == Plain(attributes[i].name, value);
      PlainText(attributes[i].name, value);
      var quoted := " ";
      quoted := quoted + attributes[i].name;
      quoted := quoted + "='";
      quoted := quoted + value;
      quoted := quoted + "'";
      s := s + quoted;
    }
    assert all[..|attributes|] == all;
  }

  // ---- reading the event stream ------------------------------------------

  datatype Reading = Reading(envelope: Envelope, inContent: bool, depth: nat)

  const BLANK: Reading := Reading(Envelope("", "", "", None), false, 0)

  function Push(p: Reading, s: string): Reading {
    p.(envelope := p.envelope.(contentInner := p.envelope.contentInner + s))
  }

  // The three kinds of tag, around attributes that are already text.

  function Opening(name: string, attributes: string): string {
    "<" + name + attributes + ">"
  }

  function Childless(name: string, attributes: string): string {
    "<" + name + attributes + "/>"
  }

  function Closing(name: string): string {
    "</" + name + ">"
  }

  function KeptAttributes(charRef: CharRef, attributes: Attributes): string {
    AttributesText(RewrittenAttributes(charRef, attributes))
  }

  function Affix(charRef: CharRef, e: Envelope, name: string, attributes: Attributes): Envelope {
    if name == "from" then e.(from := AttrStr(charRef, attributes, "jid"))
    else if name == "to" then e.(to := AttrStr(charRef, attributes, "jid"))
    else if name == "time" then
      var stamp := AttrStr(charRef, attributes, "stamp");
      if stamp != "" then e.(time := Some(stamp)) else e
    else e
  }

  function Take(charRef: CharRef, p: Reading, e: Event): Reading {
    match e
    case Start(name, attributes) =>
      if p.inContent then Push(p.(depth := p.depth + 1), Opening(name, KeptAttributes(charRef, attributes)))
      else if name == "content" then p.(inContent := true)
      else p
    case End(name) =>
      if name == "content" && p.depth == 0 then p.(inContent := false)
      else if p.inContent then Push(p.(depth := if p.depth == 0 then 0 else p.depth - 1), Closing(name))
      else p
    case Empty(name, attributes) =>
      if p.inContent then Push(p, Childless(name, KeptAttributes(charRef, attributes)))
      else p.(envelope := Affix(charRef, p.envelope, name, attributes))
    case Chars(text) => if p.inContent then Push(p, text) else p
    case GeneralRef(name) => if p.inContent then Push(p, "&" + name + ";") else p
    case Other => p
    case Malformed => p
  }

  function TakeAll(charRef: CharRef, p: Reading, events: seq<Event>): Reading {
    if events == [] then p else Take(charRef, TakeAll(charRef, p, events[..|events| - 1]), events[|events| - 1])
  }

  /** `None` is a parse error. */
  function Parsed(charRef: CharRef, events: seq<Event>): Option<Envelope> {
    if Malformed in events then None else Some(TakeAll(charRef, BLANK, events).envelope)
  }

  method FromXml(charRef: CharRef, events: seq<Event>) returns (r: Option<Envelope>)
    ensures r == Parsed(charRef, events)
    ensures r.None? <==> Malformed in events
  {
    hide Rewritten, Normalized, AttributesText, RewrittenAttributes, AttrStr, Opening, Closing, Childless;
    var from, to, contentInner := "", "", "";
    var time: Option<string> := None;
    var depthInContent: nat := 0;
    var inContent := false;
    for i := 0 to |events|
      invariant Malformed !in events[..i]
      invariant TakeAll(charRef, BLANK, events[..i])
                  == Reading(Envelope(contentInner, from, to, time), inContent, depthInContent)
    {
      assert events[..i + 1][..i] == events[..i];
      match events[i] {
        case Malformed =>
          assert Malformed in events;
          return None;
        case Start(name, attributes) =>
          if name == "content" && !inContent {
            inContent := true;
          } else if inContent {
            depthInContent := depthInContent + 1;
            var printed := AttrsStr(charRef, attributes);
            contentInner := contentInner + Opening(name, printed);
          }
        case End(name) =>
          if name == "content" && depthInContent == 0 {
            inContent := false;
          } else if inContent {
            depthInContent := if depthInContent == 0 then 0 else depthInContent - 1;
            contentInner := contentInner + Closing(name);
          }
        case Empty(name, attributes) =>
          if name == "from" && !inContent {
            from := AttrStr(charRef, attributes, "jid");
          } else if name == "to" && !inContent {
            to := AttrStr(charRef, attributes, "jid");
          } else if name == "time" && !inContent {
            var stamp := AttrStr(charRef, attributes, "stamp");
            if stamp != "" {
              time := Some(stamp);
            }
          } else if inContent {
            var printed := AttrsStr(charRef, attributes);
            contentInner := contentInner + Childless(name, printed);
          }
        case Chars(text) =>
          if inContent {
            contentInner := contentInner + text;
          }
        case GeneralRef(name) =>
          if inContent {
            contentInner := contentInner + ("&" + name + ";");
          }
        case Other =>
      }
    }
    assert events[..|events|] == events;
    r := Some(Envelope(contentInner, from, to, time));
  }

  // ---- well-nested streams -----------------------------------------------

  datatype Forest = Nothing | Then(before: Forest, last: Node)

  /** `gap` and `closingGap` are the white space before the end of a tag. */
  datatype Node =
    | Element(name: string, attributes: Attributes, gap: string, children: Forest, closingGap: string)
    | Single(name: string, attributes: Attributes, gap: string)
    | Text(text: string)
    | Reference(name: string)
    | Ignored(text: string)

  function Events(f: Forest): seq<Event> {
    match f
    case Nothing => []
    case Then(before, last) => Events(before) + NodeEvents(last)
  }

  function NodeEvents(n: Node): seq<Event> {
    match n
    case Element(name, attributes, _, children, _) => [Start(name, attributes)] + Events(children) + [End(name)]
    case Single(name, attributes, _) => [Empty(name, attributes)]
    case Text(text) => [Chars(text)]
    case Reference(name) => [GeneralRef(name)]
    case Ignored(_) => [Other]
  }

  /** What is kept of content: everything but comments and the like, with attributes rewritten. */
  function Printed(charRef: CharRef, f: Forest): string {
    match f
    case Nothing => ""
    case Then(before, last) => Printed(charRef, before) + PrintedNode(charRef, last)
  }

  function PrintedNode(charRef: CharRef, n: Node): string {
    match n
    case Element(name, attributes, _, children, _) =>
      Opening(name, KeptAttributes(charRef, attributes)) + Printed(charRef, children) + Closing(name)
    case Single(name, attributes, _) => Childless(name, KeptAttributes(charRef, attributes))
    case Text(text) => text
    case Reference(name) => "&" + name + ";"
    case Ignored(_) => ""
  }

  /** The envelope a forest stands for: affixes are the childless elements outside every `content`
      element, the last of each name; the content is what the outermost `content` elements hold. */
  function Read(charRef: CharRef, e: Envelope, f: Forest): Envelope
    decreases f
  {
    match f
    case Nothing => e
    case Then(before, last) => ReadNode(charRef, Read(charRef, e, before), last)
  }

  function ReadNode(charRef: CharRef, e: Envelope, n: Node): Envelope
    decreases n
  {
    match n
    case Element(name, attributes, _, children, _) =>
      if name == "content" then e.(contentInner := e.contentInner + Printed(charRef, children))
      else Read(charRef, e, children)
    case Single(name, attributes, _) => Affix(charRef, e, name, attributes)
    case Text(_) => e
    case Reference(_) => e
    case Ignored(_) => e
  }

  lemma {:induction false} TakeAllAppends(charRef: CharRef, p: Reading, xs: seq<Event>, ys: seq<Event>)
    ensures TakeAll(charRef, p, xs + ys) == TakeAll(charRef, TakeAll(charRef, p, xs), ys)
    decreases |ys|
  {
    if ys == [] {
      assert xs + ys == xs;
    } else {
      var front := ys[..|ys| - 1];
      assert (xs + ys)[..|xs + ys| - 1] == xs + front;
      TakeAllAppends(charRef, p, xs, front);
    }
  }

  lemma TakeOne(charRef: CharRef, p: Reading, e: Event)
    ensures TakeAll(charRef, p, [e]) == Take(charRef, p, e)
  {
    assert [e][..0] == [];
  }

  lemma PushTwice(p: Reading, a: string, b: string)
    ensures Push(Push(p, a), b) == Push(p, a + b)
    ensures Push(p, "") == p
  {
    assert p.envelope.contentInner + a + b == p.envelope.contentInner + (a + b);
    assert p.envelope.contentInner + "" == p.envelope.contentInner;
  }

  /** Inside content every forest is printed, a nested `content` element like any other. */
  lemma {:induction false} InsideContent(charRef: CharRef, p: Reading, f: Forest)
    requires p.inContent
    ensures TakeAll(charRef, p, Events(f)) == Push(p, Printed(charRef, f))
    decreases f
  {
    match f
    case Nothing => PushTwice(p, "", "");
    case Then(before, last) =>
      InsideContent(charRef, p, before);
      TakeAllAppends(charRef, p, Events(before), NodeEvents(last));
      NodeInsideContent(charRef, Push(p, Printed(charRef, before)), last);
      PushTwice(p, Printed(charRef, before), PrintedNode(charRef, last));
  }

  lemma {:induction false} NodeInsideContent(charRef: CharRef, p: Reading, n: Node)
    requires p.inContent
    ensures TakeAll(charRef, p, NodeEvents(n)) == Push(p, PrintedNode(charRef, n))
    decreases n
  {
    match n
    case Element(name, attributes, _, children, _) =>
      var open, inner, close := Opening(name, KeptAttributes(charRef, attributes)), Printed(charRef, children), Closing(name);
      var q := Push(p.(depth := p.depth + 1), open);
      TakeOne(charRef, p, Start(name, attributes));
      TakeAllAppends(charRef, p, [Start(name, attributes)], Events(children));
      InsideContent(charRef, q, children);
      TakeAllAppends(charRef, p, [Start(name, attributes)] + Events(children), [End(name)]);
      TakeOne(charRef, Push(q, inner), End(name));
      PushTwice(p, open, inner);
      PushTwice(p, open + inner, close);
    case Single(name, attributes, _) => TakeOne(charRef, p, Empty(name, attributes));
    case Text(text) => TakeOne(charRef, p, Chars(text));
    case Reference(name) => TakeOne(charRef, p, GeneralRef(name));
    case Ignored(_) =>
      TakeOne(charRef, p, Other);
      PushTwice(p, "", "");
  }

  lemma {:induction false} OutsideContent(charRef: CharRef, e: Envelope, f: Forest)
    ensures TakeAll(charRef, Reading(e, false, 0), Events(f)) == Reading(Read(charRef, e, f), false, 0)
    decreases f
  {
    match f
    case Nothing =>
    case Then(before, last) =>
      OutsideContent(charRef, e, before);
      TakeAllAppends(charRef, Reading(e, false, 0), Events(before), NodeEvents(last));
      NodeOutsideContent(charRef, Read(charRef, e, before), last);
  }

  lemma {:induction false} NodeOutsideContent(charRef: CharRef, e: Envelope, n: Node)
    ensures TakeAll(charRef, Reading(e, false, 0), NodeEvents(n)) == Reading(ReadNode(charRef, e, n), false, 0)
    decreases n
  {
    var p := Reading(e, false, 0);
    match n
    case Element(name, attributes, _, children, _) =>
      TakeOne(charRef, p, Start(name, attributes));
      TakeAllAppends(charRef, p, [Start(name, attributes)], Events(children));
      TakeAllAppends(charRef, p, [Start(name, attributes)] + Events(children), [End(name)]);
      if name == "content" {
        var q := p.(inContent := true);
        InsideContent(charRef, q, children);
        TakeOne(charRef, Push(q, Printed(charRef, children)), End(name));
      } else {
        OutsideContent(charRef, e, children);
        TakeOne(charRef, Reading(Read(charRef, e, children), false, 0), End(name));
      }
    case Single(name, attributes, _) => TakeOne(charRef, p, Empty(name, attributes));
    case Text(text) => TakeOne(charRef, p, Chars(text));
    case Reference(name) => TakeOne(charRef, p, GeneralRef(name));
    case Ignored(_) => TakeOne(charRef, p, Other);
  }

  lemma {:induction false} NothingMalformed(f: Forest)
    ensures Malformed !in Events(f)
  {
    match f
    case Nothing =>
    case Then(before, last) =>
      NothingMalformed(before);
      if last.Element? {
        NothingMalformed(last.children);
      }
  }

  /** Main result, for every well-nested stream: the loop with its flag and its depth counter reads
      what the tree says. */
  lemma EveryNestedStreamIsRead(charRef: CharRef, f: Forest)
    ensures Parsed(charRef, Events(f)) == Some(Read(charRef, BLANK.envelope, f))
  {
    NothingMalformed(f);
    OutsideContent(charRef, BLANK.envelope, f);
  }

  /** The same but for what stands in `content` elements, wherever these are. */
  predicate SameOutside(f: Forest, g: Forest)
    decreases f
  {
    match f
    case Nothing => g.Nothing?
    case Then(before, last) => g.Then? && SameOutside(before, g.before) && SameNodeOutside(last, g.last)
  }

  predicate SameNodeOutside(m: Node, n: Node)
    decreases m
  {
    if m.Element? then
      && n.Element? && m.name == n.name
      && (m.name == "content" || SameOutside(m.children, n.children))
    else m == n
  }

  lemma {:induction false} SameAffixes(charRef: CharRef, d: Envelope, e: Envelope, f: Forest, g: Forest)
    requires SameOutside(f, g) && d.(contentInner := "") == e.(contentInner := "")
    ensures Read(charRef, d, f).(contentInner := "") == Read(charRef, e, g).(contentInner := "")
    decreases f
  {
    if f.Then? {
      SameAffixes(charRef, d, e, f.before, g.before);
      SameNodeAffixes(charRef, Read(charRef, d, f.before), Read(charRef, e, g.before), f.last, g.last);
    }
  }

  lemma {:induction false} SameNodeAffixes(charRef: CharRef, d: Envelope, e: Envelope, m: Node, n: Node)
    requires SameNodeOutside(m, n) && d.(contentInner := "") == e.(contentInner := "")
    ensures ReadNode(charRef, d, m).(contentInner := "") == ReadNode(charRef, e, n).(contentInner := "")
    decreases m
  {
    if m.Element? && m.name != "content" {
      SameAffixes(charRef, d, e, m.children, n.children);
    }
  }

  /** Main result: two streams that differ only in what their `content` elements hold, at any depth and
      under any names, are read with the same sender, recipient and time. */
  lemma ContentCannotMoveTheAffixes(charRef: CharRef, f: Forest, g: Forest)
    requires SameOutside(f, g)
    ensures var x, y := Parsed(charRef, Events(f)), Parsed(charRef, Events(g));
            && x.Some? && y.Some?
            && x.value.from == y.value.from && x.value.to == y.value.to && x.value.time == y.value.time
  {
    EveryNestedStreamIsRead(charRef, f);
    EveryNestedStreamIsRead(charRef, g);
    SameAffixes(charRef, BLANK.envelope, BLANK.envelope, f, g);
  }

  // ---- which element an affix comes from ----------------------------------

  /** The childless elements outside every `content` element, in document order. */
  function Singles(f: Forest): seq<(string, Attributes)> {
    match f
    case Nothing => []
    case Then(before, last) => Singles(before) + SinglesOf(last)
  }

  function SinglesOf(n: Node): seq<(string, Attributes)> {
    match n
    case Element(name, _, _, children, _) => if name == "content" then [] else Singles(children)
    case Single(name, attributes, _) => [(name, attributes)]
    case _ => []
  }

  /** The attribute `key` of the last element of this name that has a value, or has one that is not empty. */
  function LastValue(charRef: CharRef, singles: seq<(string, Attributes)>, name: string, key: string, skipEmpty: bool)
    : Option<string>
  {
    if singles == [] then None
    else
      var last := singles[|singles| - 1];
      if last.0 == name && !(skipEmpty && AttrStr(charRef, last.1, key) == "") then Some(AttrStr(charRef, last.1, key))
      else LastValue(charRef, singles[..|singles| - 1], name, key, skipEmpty)
  }

  function Or<T>(o: Option<T>, default: T): T {
    match o case Some(v) => v case None => default
  }

  lemma {:induction false} LastValueAppends(charRef: CharRef, a: seq<(string, Attributes)>, b: seq<(string, Attributes)>,
      name: string, key: string, skipEmpty: bool)
    ensures LastValue(charRef, a + b, name, key, skipEmpty) ==
              var last := LastValue(charRef, b, name, key, skipEmpty);
              if last.Some? then last else LastValue(charRef, a, name, key, skipEmpty)
    decreases |b|
  {
    if b == [] {
      assert a + b == a;
    } else {
      assert (a + b)[..|a + b| - 1] == a + b[..|b| - 1];
      LastValueAppends(charRef, a, b[..|b| - 1], name, key, skipEmpty);
    }
  }

  /** `d` is `e` with the affixes that are found among `singles`. */
  predicate AffixesFrom(charRef: CharRef, e: Envelope, singles: seq<(string, Attributes)>, d: Envelope) {
    && d.from == Or(LastValue(charRef, singles, "from", "jid", false), e.from)
    && d.to == Or(LastValue(charRef, singles, "to", "jid", false), e.to)
    && d.time == (var t := LastValue(charRef, singles, "time", "stamp", true); if t.Some? then t else e.time)
  }

  lemma AffixesJoin(charRef: CharRef, e: Envelope, a: seq<(string, Attributes)>, m: Envelope, b: seq<(string, Attributes)>,
      d: Envelope)
    requires AffixesFrom(charRef, e, a, m) && AffixesFrom(charRef, m, b, d)
    ensures AffixesFrom(charRef, e, a + b, d)
  {
    LastValueAppends(charRef, a, b, "from", "jid", false);
    LastValueAppends(charRef, a, b, "to", "jid", false);
    LastValueAppends(charRef, a, b, "time", "stamp", true);
  }

  lemma LastOfOne(charRef: CharRef, found: string, attributes: Attributes, name: string, key: string, skipEmpty: bool)
    ensures LastValue(charRef, [(found, attributes)], name, key, skipEmpty) ==
              if found == name && !(skipEmpty && AttrStr(charRef, attributes, key) == "")
              then Some(AttrStr(charRef, attributes, key)) else None
  {
    hide AttrStr;
    assert [(found, attributes)][..0] == [];
  }

  lemma OneSingle(charRef: CharRef, e: Envelope, name: string, attributes: Attributes)
    ensures AffixesFrom(charRef, e, [(name, attributes)], Affix(charRef, e, name, attributes))
  {
    LastOfOne(charRef, name, attributes, "from", "jid", false);
    LastOfOne(charRef, name, attributes, "to", "jid", false);
    LastOfOne(charRef, name, attributes, "time", "stamp", true);
    hide AttrStr, LastValue;
    assert "from"[0] != "to"[0] && "from"[0] != "time"[0] && |"to"| != |"time"|;
  }

  lemma NoSingles(charRef: CharRef, e: Envelope, d: Envelope)
    requires d.from == e.from && d.to == e.to && d.time == e.time
    ensures AffixesFrom(charRef, e, [], d)
  {
  }

  lemma {:induction false} AffixesOfForest(charRef: CharRef, e: Envelope, f: Forest)
    ensures AffixesFrom(charRef, e, Singles(f), Read(charRef, e, f))
    decreases f
  {
    hide AffixesFrom;
    match f
    case Nothing => NoSingles(charRef, e, e);
    case Then(before, last) =>
      AffixesOfForest(charRef, e, before);
      var m := Read(charRef, e, before);
      AffixesOfNode(charRef, m, last);
      AffixesJoin(charRef, e, Singles(before), m, SinglesOf(last), ReadNode(charRef, m, last));
  }

  lemma {:induction false} AffixesOfNode(charRef: CharRef, e: Envelope, n: Node)
    ensures AffixesFrom(charRef, e, SinglesOf(n), ReadNode(charRef, e, n))
    decreases n
  {
    hide AffixesFrom, Affix, Printed;
    match n
    case Element(name, _, _, children, _) =>
      if name == "content" {
        NoSingles(charRef, e, ReadNode(charRef, e, n));
      } else {
        AffixesOfForest(charRef, e, children);
      }
    case Single(name, attributes, _) => OneSingle(charRef, e, name, attributes);
    case Text(_) => NoSingles(charRef, e, e);
    case Reference(_) => NoSingles(charRef, e, e);
    case Ignored(_) => NoSingles(charRef, e, e);
  }

  /** Main result: sender and recipient are the `jid` of the last `from` and `to` element outside content,
      and the time is the last `stamp` of a `time` element that is not empty. */
  lemma WhereTheAffixesComeFrom(charRef: CharRef, f: Forest)
    ensures var r := Parsed(charRef, Events(f));
            && r.Some?
            && r.value.from == Or(LastValue(charRef, Singles(f), "from", "jid", false), "")
            && r.value.to == Or(LastValue(charRef, Singles(f), "to", "jid", false), "")
            && r.value.time == LastValue(charRef, Singles(f), "time", "stamp", true)
  {
    EveryNestedStreamIsRead(charRef, f);
    AffixesOfForest(charRef, BLANK.envelope, f);
  }

  /** An attribute is found by its name, the first of that name; a missing one is empty, and one that
      cannot be decoded is taken as it stands. */
  lemma {:induction false} AttributeByName(charRef: CharRef, attributes: Attributes, key: string, k: nat)
    requires k <= |attributes| && forall i :: 0 <= i < k ==> attributes[i].name != key
    ensures k == |attributes| ==> AttrStr(charRef, attributes, key) == ""
    ensures k < |attributes| && attributes[k].name == key ==>
              AttrStr(charRef, attributes, key) == Or(Normalized(charRef, attributes[k].raw), attributes[k].raw)
  {
    hide Normalized;
    if k > 0 {
      AttributeByName(charRef, attributes[1..], key, k - 1);
    }
  }

  // ---- writing an envelope -----------------------------------------------

  /** The text an event stream stands for. */
  function Serialized(f: Forest): string {
    match f
    case Nothing => ""
    case Then(before, last) => Serialized(before) + SerializedNode(last)
  }

  function SerializedNode(n: Node): string {
    match n
    case Element(name, attributes, gap, children, closingGap) =>
      Opening(name, AttributesText(attributes) + gap) + Serialized(children) + Closing(name + closingGap)
    case Single(name, attributes, gap) => Childless(name, AttributesText(attributes) + gap)
    case Text(text) => text
    case Reference(name) => "&" + name + ";"
    case Ignored(text) => text
  }

  const RPAD_ELEMENT_OVERHEAD: nat := |"<rpad></rpad>"|

  function TimeText(time: Option<string>): string {
    match time
    case Some(t) => Childless("time", Quoted("stamp", Escape(t)))
    case None => ""
  }

  function JidText(name: string, jid: string): string {
    Childless(name, Quoted("jid", Escape(jid)))
  }

  function WrappedContent(content: string): string {
    Opening("content", "") + content + Closing("content")
  }

  /** Everything inside the envelope but the padding. */
  function Head(e: Envelope): string {
    WrappedContent(e.contentInner) + TimeText(e.time) + JidText("from", e.from) + JidText("to", e.to)
  }

  function Rpad(padding: string): string {
    Opening("rpad", "") + padding + Closing("rpad")
  }

  const ENVELOPE_TAG: string := Opening("envelope", Quoted("xmlns", NS_SCE))

  /** Length with an empty padding. */
  function Unpadded(e: Envelope): nat {
    |ENVELOPE_TAG| + |Head(e)| + RPAD_ELEMENT_OVERHEAD + |Closing("envelope")|
  }

  function PadLength(e: Envelope): nat {
    (Unpadded(e) / PAD_BUCKET + 1) * PAD_BUCKET - Unpadded(e)
  }

  /** `pad` stands for the random padding: a text of each length. */
  ghost predicate PadLaw(pad: nat -> string) {
    forall n: nat :: |pad(n)| == n
  }

  function Written(e: Envelope, padding: string): string {
    ENVELOPE_TAG + (Head(e) + Rpad(padding)) + Closing("envelope")
  }

  lemma Grouped(a: string, b: string, c: string, d: string)
    ensures a + b + c + d == a + (b + c + d)
  {
  }

  lemma GroupedHead(e: Envelope, content: string, time: string)
    requires content == ENVELOPE_TAG + WrappedContent(e.contentInner) && time == content + TimeText(e.time)
    ensures time + JidText("from", e.from) + JidText("to", e.to) == ENVELOPE_TAG + Head(e)
  {
    Grouped(ENVELOPE_TAG, WrappedContent(e.contentInner), TimeText(e.time), JidText("from", e.from));
    Grouped(ENVELOPE_TAG, WrappedContent(e.contentInner) + TimeText(e.time), JidText("from", e.from), JidText("to", e.to));
  }

  lemma GroupedAll(e: Envelope, padding: string)
    ensures ENVELOPE_TAG + Head(e) + Rpad(padding) + Closing("envelope") == Written(e, padding)
  {
  }

  /** Everything before the padding. */
  method WriteHead(e: Envelope) returns (s: string)
    ensures s == ENVELOPE_TAG + Head(e)
  {
    s := ENVELOPE_TAG;
    s := s + Opening("content", "");
    s := s + e.contentInner;
    s := s + Closing("content");
    Grouped(ENVELOPE_TAG, Opening("content", ""), e.contentInner, Closing("content"));
    ghost var content := s;
    if e.time.Some? {
      s := s + TimeText(e.time);
    } else {
      assert s == s + TimeText(e.time);
    }
    GroupedHead(e, content, content + TimeText(e.time));
    s := s + JidText("from", e.from);
    s := s + JidText("to", e.to);
  }

  /** The written envelope, tag by tag. */
  lemma WrittenReads(e: Envelope, padding: string)
    ensures ENVELOPE_TAG == "<envelope xmlns='urn:xmpp:sce:1'>"
    ensures Written(e, padding) ==
              "<envelope xmlns='urn:xmpp:sce:1'>"
              + ("<content>" + e.contentInner + "</content>"
                 + (match e.time case Some(t) => "<time stamp='" + Escape(t) + "'/>" case None => "")
                 + ("<from jid='" + Escape(e.from) + "'/>") + ("<to jid='" + Escape(e.to) + "'/>")
                 + ("<rpad>" + padding + "</rpad>"))
              + "</envelope>"
  {
    hide Escape;
    TagTexts();
    AffixTag("from", "jid", e.from);
    AffixTag("to", "jid", e.to);
    if e.time.Some? {
      AffixTag("time", "stamp", e.time.value);
    }
    hide Childless, Opening, Closing, Quoted;
  }

  lemma TagTexts()
    ensures Opening("envelope", Quoted("xmlns", NS_SCE)) == "<envelope xmlns='urn:xmpp:sce:1'>"
    ensures Opening("content", "") == "<content>" && Closing("content") == "</content>"
    ensures Opening("rpad", "") == "<rpad>" && Closing("rpad") == "</rpad>" && Closing("envelope") == "</envelope>"
  {
  }

  lemma AffixTag(name: string, key: string, value: string)
    ensures Childless(name, Quoted(key, Escape(value))) == "<" + name + " " + key + "='" + Escape(value) + "'/>"
    ensures "<" + "from" + " " + "jid" + "='" == "<from jid='" && "<" + "to" + " " + "jid" + "='" == "<to jid='"
    ensures "<" + "time" + " " + "stamp" + "='" == "<time stamp='"
  {
    hide Escape;
  }

  method ToXml(e: Envelope, pad: nat -> string) returns (s: string)
    requires PadLaw(pad)
    ensures s == Written(e, pad(PadLength(e)))
  {
    s := WriteHead(e);
    var unpadded := |s| + RPAD_ELEMENT_OVERHEAD + |Closing("envelope")|;
    var target := (unpadded / PAD_BUCKET + 1) * PAD_BUCKET;
    GroupedAll(e, pad(target - unpadded));
    s := s + Rpad(pad(target - unpadded));
    s := s + Closing("envelope");
  }

  /** The length of what is encrypted tells the size class of the content, and nothing else. */
  lemma LengthTellsTheSizeClassOnly(a: Envelope, b: Envelope, pad: nat -> string)
    requires PadLaw(pad)
    ensures var x, y := Written(a, pad(PadLength(a))), Written(b, pad(PadLength(b)));
            && |x| % 256 == 0
            && (|x| == |y| <==> Unpadded(a) / 256 == Unpadded(b) / 256)
            && Unpadded(a) < |x| <= Unpadded(a) + 256
  {
    WrittenLength(a, pad);
    WrittenLength(b, pad);
  }

  lemma WrittenLength(e: Envelope, pad: nat -> string)
    requires PadLaw(pad)
    ensures |Written(e, pad(PadLength(e)))| == (Unpadded(e) / PAD_BUCKET + 1) * PAD_BUCKET
  {
  }
}
