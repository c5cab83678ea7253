/**
  The outline of an SDP: its media lines, the rtpmap lines below each, and how many feedback lines
  follow each of those. Two equal texts have equal outlines, which is how a change is noticed.
 */
module SdpOutline {
  import opened Wrappers
  import opened Text
  import opened Sdp
  import opened SdpReadBack
  import opened SdpSections

  datatype Outline = Outline(media: string, payloads: seq<(string, nat)>)

  datatype LineClass = IsMedia | IsRtpmap | IsFeedback | IsOther

  function ClassOf(line: string): LineClass {
    if "m=" <= line then IsMedia
    else if "a=rtpmap:" <= line then IsRtpmap
    else if "a=rtcp-fb:" <= line then IsFeedback
    else IsOther
  }

  function GrowLast(o: Outline, c: LineClass, line: string): Outline {
    if c == IsRtpmap then o.(payloads := o.payloads + [(line, 0)])
    else if c == IsFeedback && o.payloads != [] then
      var k := |o.payloads| - 1;
      o.(payloads := o.payloads[..k] + [(o.payloads[k].0, o.payloads[k].1 + 1)])
    else o
  }

  function Grow(os: seq<Outline>, line: string): seq<Outline> {
    if ClassOf(line) == IsMedia then os + [Outline(line, [])]
    else if os == [] then os
    else os[..|os| - 1] + [GrowLast(os[|os| - 1], ClassOf(line), line)]
  }

  function OutlineOf(os: seq<Outline>, lines: seq<string>): seq<Outline> {
    if lines == [] then os else Grow(OutlineOf(os, lines[..|lines| - 1]), lines[|lines| - 1])
  }

  lemma {:induction false} OutlineAppends(os: seq<Outline>, a: seq<string>, b: seq<string>)
    ensures OutlineOf(os, a + b) == OutlineOf(OutlineOf(os, a), b)
    decreases |b|
  {
    hide Grow;
    if b == [] {
      assert a + b == a;
    } else {
      assert (a + b)[..|a + b| - 1] == a + b[..|b| - 1];
      OutlineAppends(os, a, b[..|b| - 1]);
    }
  }

  lemma ShownAppends(a: seq<OutLine>, b: seq<OutLine>)
    ensures Shown(a + b) == Shown(a) + Shown(b)
  {
    hide Show;
  }

  /** The outline of written lines, line by line. */
  lemma WrittenOutline(os: seq<Outline>, a: seq<OutLine>, b: seq<OutLine>)
    ensures OutlineOf(os, Shown(a + b)) == OutlineOf(OutlineOf(os, Shown(a)), Shown(b))
  {
    hide Shown, OutlineOf;
    ShownAppends(a, b);
    OutlineAppends(os, Shown(a), Shown(b));
  }

  lemma OutlineOfOne(os: seq<Outline>, l: OutLine)
    ensures OutlineOf(os, Shown([l])) == Grow(os, Show(l) + "\r")
  {
    hide Grow, Show;
    assert Shown([l]) == [Show(l) + "\r"];
    assert [Show(l) + "\r"][..0] == [];
  }

  // ---- the classes of the lines ------------------------------------------

  ghost predicate Others(lines: seq<OutLine>) {
    forall i :: 0 <= i < |lines| ==> ClassOf(Show(lines[i]) + "\r") == IsOther
  }

  lemma {:induction false} OthersChangeNothing(os: seq<Outline>, lines: seq<OutLine>)
    requires Others(lines)
    ensures OutlineOf(os, Shown(lines)) == os
  {
    hide Show, ClassOf;
    if lines != [] {
      var front := lines[..|lines| - 1];
      OthersChangeNothing(os, front);
      assert Shown(lines)[..|lines| - 1] == Shown(front);
      assert ClassOf(Show(lines[|lines| - 1]) + "\r") == IsOther;
      if os != [] {
        assert os[..|os| - 1] + [os[|os| - 1]] == os;
      }
    }
  }

  lemma OtherStart(line: string)
    requires |line| >= 3
    requires line[0] != 'm' && (line[0] == 'a' ==> line[2] != 'r')
    ensures ClassOf(line) == IsOther
  {
    assert "a=rtpmap:"[2] == 'r' && "a=rtcp-fb:"[2] == 'r' && "a=rtpmap:"[0] == 'a' && "a=rtcp-fb:"[0] == 'a';
  }

  lemma AttrIsOther(key: string, value: string)
    requires key != "" && key[0] != 'r'
    ensures ClassOf(AttrLine(key, value) + "\r") == IsOther
  {
    hide ClassOf;
    var line := AttrLine(key, value) + "\r";
    assert line[0] == 'a' && line[2] == key[0];
    OtherStart(line);
  }

  lemma MuxIsOther()
    ensures ClassOf("a=rtcp-mux" + "\r") == IsOther
  {
    var line := "a=rtcp-mux" + "\r";
    assert line[7] == 'm' && "a=rtcp-fb:"[7] == 'f' && line[4] == 'c' && "a=rtpmap:"[4] == 'p' && line[0] == 'a';
  }

  lemma FixedIsOther(text: string)
    requires |text| >= 3 && text[0] != 'm' && (text[0] == 'a' ==> text[2] != 'r')
    ensures ClassOf(Show(FixedOut(text)) + "\r") == IsOther
  {
    hide ClassOf;
    OtherStart(text + "\r");
  }

  lemma AttrOutIsOther(key: string, value: string)
    requires key != "" && key[0] != 'r'
    ensures ClassOf(Show(AttrOut(key, value)) + "\r") == IsOther
  {
    hide ClassOf, AttrLine;
    AttrIsOther(key, value);
  }

  lemma FingerprintIsOther(fingerprint: Option<Fingerprint>)
    ensures Others(FingerprintLines(fingerprint))
  {
    hide ClassOf, AttrLine;
    if fingerprint.Some? {
      var fp := fingerprint.value;
      AttrIsOther("fingerprint", Or(fp.hash, "sha-256") + " " + fp.text);
      AttrIsOther("setup", Or(fp.setup, "active"));
    }
  }

  lemma FixedLinesAreOther()
    ensures ClassOf(Show(FixedOut("c=IN IP4 0.0.0.0")) + "\r") == IsOther
    ensures ClassOf(Show(FixedOut("a=sendrecv")) + "\r") == IsOther
    ensures ClassOf(Show(FixedOut("a=rtcp-mux")) + "\r") == IsOther
  {
    hide ClassOf, Show;
    FixedIsOther("c=IN IP4 0.0.0.0");
    FixedIsOther("a=sendrecv");
    MuxIsOther();
    FixedIsItself("a=rtcp-mux");
  }

  lemma CredentialsAreOther(b: Bundle, mid: string)
    ensures ClassOf(Show(AttrOut("ice-ufrag", b.ufrag)) + "\r") == IsOther
    ensures ClassOf(Show(AttrOut("ice-pwd", b.pwd)) + "\r") == IsOther
    ensures ClassOf(Show(AttrOut("ice-options", "trickle")) + "\r") == IsOther
    ensures ClassOf(Show(AttrOut("mid", mid)) + "\r") == IsOther
  {
    hide ClassOf, Show;
    AttrOutIsOther("ice-ufrag", b.ufrag);
    AttrOutIsOther("ice-pwd", b.pwd);
    AttrOutIsOther("ice-options", "trickle");
    AttrOutIsOther("mid", mid);
  }

  lemma PreambleIsOther(b: Bundle, mid: string)
    ensures Others(Preamble(b, mid))
  {
    hide ClassOf, Show, FingerprintLines;
    FixedLinesAreOther();
    CredentialsAreOther(b, mid);
    FingerprintIsOther(b.fingerprint);
  }

  lemma SourceIsOther(source: Option<Source>)
    ensures Others(SourceLines(source))
  {
    hide ClassOf, AttrLine;
    match source
    case Some(Source(Some(ssrc), cname)) =>
      AttrIsOther("ssrc", ssrc + " " + ("cname:" + Or(cname, "mxc")));
    case _ =>
  }

  lemma {:induction false} CandidatesAreOther(cs: seq<Candidate>)
    ensures Others(CandidateLines(cs))
  {
    hide ClassOf, CandidateWords, Show;
    if cs != [] {
      CandidatesAreOther(cs[..|cs| - 1]);
      CandidateIsOther(cs[|cs| - 1]);
    }
  }

  lemma CandidateIsOther(c: Candidate)
    ensures Others(OneCandidate(c))
  {
    hide ClassOf, AttrLine, CandidateWords;
    if CandidateWords(c).Some? {
      AttrIsOther("candidate", Join(CandidateWords(c).value, " "));
    }
  }

  lemma FmtpIsOther(id: string, params: seq<string>)
    ensures Others(FmtpLines(id, params))
  {
    hide ClassOf, AttrLine;
    if params != [] {
      AttrIsOther("fmtp", id + " " + Join(params, ";"));
    }
  }

  lemma KeyStart(key: string, value: string, start: string)
    requires start == "a=" + key + ":"
    ensures start <= AttrLine(key, value) + "\r"
  {
  }

  lemma RtpmapClass(l: OutLine)
    requires l.RtpmapOut?
    ensures ClassOf(Show(l) + "\r") == IsRtpmap
  {
    var value := l.id + " " + RtpmapValue(l.name, l.clockrate, l.channels);
    hide RtpmapValue;
    KeyStart("rtpmap", value, "a=rtpmap:");
    assert (Show(l) + "\r")[0] == 'a';
  }

  lemma FeedbackClass(l: OutLine)
    requires l.RtcpFbOut?
    ensures ClassOf(Show(l) + "\r") == IsFeedback
  {
    var value := l.id + " " + (l.kind + Suffix(" ", l.subtype));
    hide Suffix;
    KeyStart("rtcp-fb", value, "a=rtcp-fb:");
    var line := AttrLine("rtcp-fb", value) + "\r";
    assert line[0] == 'a' && line[4] == 'c' && "a=rtpmap:"[4] == 'p';
  }

  lemma MediaClass(l: OutLine)
    requires l.MediaOut?
    ensures ClassOf(Show(l) + "\r") == IsMedia
  {
  }

  // ---- the outline of a section ------------------------------------------

  function RtpmapLine(p: Payload): OutLine {
    RtpmapOut(Or(p.id, ""), Or(p.name, ""), Or(p.clockrate, "90000"), p.channels)
  }

  function PayloadOutline(p: Payload): (string, nat) {
    (Show(RtpmapLine(p)) + "\r", |p.feedback|)
  }

  function PayloadOutlines(ps: seq<Payload>): (r: seq<(string, nat)>)
    ensures |r| == |ps| && forall i :: 0 <= i < |ps| ==> r[i] == PayloadOutline(ps[i])
  {
    seq(|ps|, i requires 0 <= i < |ps| => PayloadOutline(ps[i]))
  }

  lemma {:induction false} FeedbackOutline(os: seq<Outline>, o: Outline, line: string, n: nat, id: string, fs: seq<Feedback>)
    ensures OutlineOf(os + [o.(payloads := o.payloads + [(line, n)])], Shown(FeedbackLines(id, fs)))
              == os + [o.(payloads := o.payloads + [(line, n + |fs|)])]
  {
    hide Show, ClassOf, Grow;
    var lines := FeedbackLines(id, fs);
    if fs != [] {
      var front := fs[..|fs| - 1];
      FeedbackOutline(os, o, line, n, id, front);
      assert Shown(lines)[..|fs| - 1] == Shown(FeedbackLines(id, front));
      FeedbackClass(lines[|fs| - 1]);
      FeedbackGrows(os, o, line, n + |front|, Shown(lines)[|fs| - 1]);
    }
  }

  lemma FeedbackGrows(os: seq<Outline>, o: Outline, line: string, n: nat, fb: string)
    requires ClassOf(fb) == IsFeedback
    ensures Grow(os + [o.(payloads := o.payloads + [(line, n)])], fb) == os + [o.(payloads := o.payloads + [(line, n + 1)])]
  {
    hide ClassOf;
    var last := o.(payloads := o.payloads + [(line, n)]);
    assert (os + [last])[..|os|] == os;
    assert last.payloads[..|o.payloads|] == o.payloads;
  }

  lemma RtpmapGrows(os: seq<Outline>, o: Outline, line: string)
    requires ClassOf(line) == IsRtpmap
    ensures Grow(os + [o], line) == os + [o.(payloads := o.payloads + [(line, 0)])]
  {
    hide ClassOf;
    assert (os + [o])[..|os|] == os;
  }

  lemma OnePayloadOutline(os: seq<Outline>, o: Outline, p: Payload)
    ensures OutlineOf(os + [o], Shown(PayloadLines(p))) == os + [o.(payloads := o.payloads + [PayloadOutline(p)])]
  {
    hide OutlineOf, Shown, Show, ClassOf, Grow, ParameterTexts;
    var id := Or(p.id, "");
    var params := ParameterTexts(p.parameters);
    var l := RtpmapLine(p);
    var line := Show(l) + "\r";
    RtpmapClass(l);
    OutlineOfOne(os + [o], l);
    RtpmapGrows(os, o, line);
    FmtpIsOther(id, params);
    OthersChangeNothing(os + [o.(payloads := o.payloads + [(line, 0)])], FmtpLines(id, params));
    FeedbackOutline(os, o, line, 0, id, p.feedback);
    WrittenOutline(os + [o], [l], FmtpLines(id, params));
    WrittenOutline(os + [o], [l] + FmtpLines(id, params), FeedbackLines(id, p.feedback));
  }

  lemma {:induction false} AllPayloadsOutline(os: seq<Outline>, o: Outline, ps: seq<Payload>)
    requires o.payloads == []
    ensures OutlineOf(os + [o], Shown(AllPayloadLines(ps))) == os + [o.(payloads := PayloadOutlines(ps))]
  {
    hide OutlineOf, Shown, PayloadLines, PayloadOutline;
    if ps == [] {
      OthersChangeNothing(os + [o], []);
    } else {
      var front, p := ps[..|ps| - 1], ps[|ps| - 1];
      AllPayloadsOutline(os, o, front);
      OnePayloadOutline(os, o.(payloads := PayloadOutlines(front)), p);
      WrittenOutline(os + [o], AllPayloadLines(front), PayloadLines(p));
      assert PayloadOutlines(ps) == PayloadOutlines(front) + [PayloadOutline(p)];
    }
  }

  function SectionOutline(c: Content): Outline
    requires c.description.Some?
  {
    var d := c.description.value;
    Outline(Show(MediaOut(Or(d.media, "audio"), Ids(d.payloads))) + "\r", PayloadOutlines(d.payloads))
  }

  lemma SectionGrows(os: seq<Outline>, b: Bundle, c: Content)
    requires c.description.Some? && c.transport.Some?
    ensures OutlineOf(os, Shown(SectionLines(b, c))) == os + [SectionOutline(c)]
  {
    hide OutlineOf, Shown, Show, ClassOf, Preamble, AllPayloadLines, SourceLines, CandidateLines, Ids, Others, PayloadOutlines;
    var d, cs := c.description.value, c.transport.value.candidates;
    var l := MediaOut(Or(d.media, "audio"), Ids(d.payloads));
    var mid := Or(c.name, "0");
    var o := Outline(Show(l) + "\r", []);
    var o' := o.(payloads := PayloadOutlines(d.payloads));
    MediaClass(l);
    OutlineOfOne(os, l);
    PreambleIsOther(b, mid);
    OthersChangeNothing(os + [o], Preamble(b, mid));
    WrittenOutline(os, [l], Preamble(b, mid));
    AllPayloadsOutline(os, o, d.payloads);
    WrittenOutline(os, [l] + Preamble(b, mid), AllPayloadLines(d.payloads));
    SourceIsOther(d.source);
    OthersChangeNothing(os + [o'], SourceLines(d.source));
    WrittenOutline(os, [l] + Preamble(b, mid) + AllPayloadLines(d.payloads), SourceLines(d.source));
    CandidatesAreOther(cs);
    OthersChangeNothing(os + [o'], CandidateLines(cs));
    WrittenOutline(os, [l] + Preamble(b, mid) + AllPayloadLines(d.payloads) + SourceLines(d.source), CandidateLines(cs));
  }

  function SectionOutlines(cs: seq<Content>): (r: seq<Outline>)
    requires forall i :: 0 <= i < |cs| ==> cs[i].description.Some?
    ensures |r| == |cs| && forall i :: 0 <= i < |cs| ==> r[i] == SectionOutline(cs[i])
  {
    seq(|cs|, i requires 0 <= i < |cs| => SectionOutline(cs[i]))
  }

  ghost predicate Complete(cs: seq<Content>) {
    forall i :: 0 <= i < |cs| ==> cs[i].description.Some? && cs[i].transport.Some?
  }

  lemma {:induction false} SectionsGrow(b: Bundle, cs: seq<Content>)
    requires Complete(cs)
    ensures OutlineOf([], Shown(AllSectionLines(b, cs))) == SectionOutlines(cs)
  {
    hide OutlineOf, Shown, SectionLines, SectionOutline;
    if cs == [] {
      OthersChangeNothing([], []);
    } else {
      var front, c := cs[..|cs| - 1], cs[|cs| - 1];
      SectionsGrow(b, front);
      SectionGrows(SectionOutlines(front), b, c);
      WrittenOutline([], AllSectionLines(b, front), SectionLines(b, c));
      assert SectionOutlines(cs) == SectionOutlines(front) + [SectionOutline(c)];
    }
  }

  lemma HeaderIsOther(mids: seq<string>)
    ensures Others(Header(mids))
  {
    FixedIsOther("v=0");
    FixedIsOther("o=- 8770656990916039506 2 IN IP4 127.0.0.1");
    FixedIsOther("s=-");
    FixedIsOther("t=0 0");
    GroupIsOther(mids);
    AttrOutIsOther("msid-semantic", " WMS");
    hide ClassOf, Show;
  }

  lemma GroupIsOther(mids: seq<string>)
    ensures ClassOf(Show(GroupOut(mids)) + "\r") == IsOther
  {
    hide ClassOf, AttrLine;
    AttrIsOther("group", "BUNDLE " + Join(mids, " "));
  }

  lemma OutlineOfSdp(cs: seq<Content>)
    requires Complete(cs)
    ensures OutlineOf([], Shown(SdpLines(cs))) == SectionOutlines(cs)
  {
    hide OutlineOf, Shown, Header, AllSectionLines, Others;
    HeaderIsOther(Mids(cs));
    OthersChangeNothing([], Header(Mids(cs)));
    SectionsGrow(BundleOf(cs), cs);
    WrittenOutline([], Header(Mids(cs)), AllSectionLines(BundleOf(cs), cs));
  }
}
