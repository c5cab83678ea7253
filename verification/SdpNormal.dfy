/** What a written SDP parses to: every media section in a normal form. */
module SdpNormal {
  import opened Wrappers
  import opened Text
  import opened Words
  import opened Sdp
  import opened SdpParsed
  import opened SdpReadBack

  // ---- lines that are read one after the other ---------------------------

  function AddOut(media: seq<Media>, lines: seq<OutLine>): seq<Media> {
    if lines == [] then media else Add(AddOut(media, lines[..|lines| - 1]), Meaning(lines[|lines| - 1]))
  }

  function UpdateAll(m: Media, lines: seq<OutLine>): Media {
    if lines == [] then m else Update(UpdateAll(m, lines[..|lines| - 1]), Meaning(lines[|lines| - 1]))
  }

  lemma {:induction false} AddShown(media: seq<Media>, lines: seq<OutLine>)
    ensures AddAll(media, Shown(lines)) == AddOut(media, lines)
  {
    hide Add, ReadLine, Show;
    if lines != [] {
      AddShown(media, lines[..|lines| - 1]);
      assert Shown(lines)[..|lines| - 1] == Shown(lines[..|lines| - 1]);
    }
  }

  lemma {:induction false} AddAppends(media: seq<Media>, a: seq<OutLine>, b: seq<OutLine>)
    ensures AddOut(media, a + b) == AddOut(AddOut(media, a), b)
    decreases |b|
  {
    hide Add, Meaning;
    if b == [] {
      assert a + b == a;
    } else {
      assert (a + b)[..|a + b| - 1] == a + b[..|b| - 1];
      AddAppends(media, a, b[..|b| - 1]);
    }
  }

  lemma {:induction false} UpdateAppends(m: Media, a: seq<OutLine>, b: seq<OutLine>)
    ensures UpdateAll(m, a + b) == UpdateAll(UpdateAll(m, a), b)
    decreases |b|
  {
    hide Update, Meaning;
    if b == [] {
      assert a + b == a;
    } else {
      assert (a + b)[..|a + b| - 1] == a + b[..|b| - 1];
      UpdateAppends(m, a, b[..|b| - 1]);
    }
  }

  lemma UpdateOne(m: Media, l: OutLine)
    ensures UpdateAll(m, [l]) == Update(m, Meaning(l))
  {
    hide Update, Meaning;
    assert [l][..0] == [];
  }

  ghost predicate NoMedia(lines: seq<OutLine>) {
    forall i :: 0 <= i < |lines| ==> !Meaning(lines[i]).MediaLine?
  }

  lemma {:induction false} AddToLast(media: seq<Media>, m: Media, lines: seq<OutLine>)
    requires NoMedia(lines)
    ensures AddOut(media + [m], lines) == media + [UpdateAll(m, lines)]
  {
    hide Update, Meaning;
    if lines != [] {
      AddToLast(media, m, lines[..|lines| - 1]);
    }
  }

  lemma {:induction false} AddToNone(lines: seq<OutLine>)
    requires NoMedia(lines)
    ensures AddOut([], lines) == []
  {
    hide Update, Meaning;
    if lines != [] {
      AddToNone(lines[..|lines| - 1]);
    }
  }

  // ---- payloads ----------------------------------------------------------

  function FbText(f: Feedback): string {
    Or(f.kind, "") + Suffix(" ", f.subtype)
  }

  function RtpmapText(p: Payload): string {
    RtpmapValue(Or(p.name, ""), Or(p.clockrate, "90000"), p.channels)
  }

  function NormalEntry(p: Payload): Entry {
    (Or(p.id, ""), TrimEnd(RtpmapText(p)))
  }

  function FmtpEntries(p: Payload): seq<Entry> {
    if ParameterTexts(p.parameters) == [] then [] else [(Or(p.id, ""), Join(ParameterTexts(p.parameters), ";"))]
  }

  function FbEntries(id: string, fs: seq<Feedback>): (r: seq<Entry>)
    ensures |r| == |fs| && forall i :: 0 <= i < |fs| ==> r[i] == (id, FbText(fs[i]))
  {
    seq(|fs|, i requires 0 <= i < |fs| => (id, FbText(fs[i])))
  }

  /** One entry, and the media section it is added to. */
  function WithPayload(m: Media, p: Payload): Media {
    m.(rtpmap := m.rtpmap + [NormalEntry(p)],
       fmtp := m.fmtp + FmtpEntries(p),
       rtcpFb := m.rtcpFb + FbEntries(Or(p.id, ""), p.feedback))
  }

  function WithPayloads(m: Media, ps: seq<Payload>): Media {
    if ps == [] then m else WithPayload(WithPayloads(m, ps[..|ps| - 1]), ps[|ps| - 1])
  }

  ghost predicate Readable(p: Payload) {
    && IsId(Or(p.id, ""))
    && (ParameterTexts(p.parameters) != [] ==> Ends(Join(ParameterTexts(p.parameters), ";")))
    && (forall i :: 0 <= i < |p.feedback| ==> Ends(FbText(p.feedback[i])))
  }

  lemma RtpmapTextHasASlash(p: Payload)
    ensures TrimEnd(RtpmapText(p)) != ""
  {
    var head := Or(p.name, "") + "/";
    var tail := Or(p.clockrate, "90000") + Suffix("/", p.channels);
    assert RtpmapText(p) == head + tail;
    TrimEndAfter(head, tail);
  }

  lemma {:induction false} UpdateFeedback(m: Media, id: string, fs: seq<Feedback>)
    requires IsId(id) && forall i :: 0 <= i < |fs| ==> Ends(FbText(fs[i]))
    ensures UpdateAll(m, FeedbackLines(id, fs)) == m.(rtcpFb := m.rtcpFb + FbEntries(id, fs))
    ensures NoMedia(FeedbackLines(id, fs))
  {
    hide Meaning, Ends, Suffix, IsId;
    if fs == [] {
      assert m.rtcpFb + FbEntries(id, fs) == m.rtcpFb;
    } else {
      var k := |fs| - 1;
      var front, f := fs[..k], fs[k];
      UpdateFeedback(m, id, front);
      assert FeedbackLines(id, fs)[..k] == FeedbackLines(id, front);
      FeedbackMeaning(id, f);
      assert FbEntries(id, fs) == FbEntries(id, front) + [(id, FbText(f))];
      assert NoMedia(FeedbackLines(id, fs)) by {
        forall i | 0 <= i < |fs| ensures !Meaning(FeedbackLines(id, fs)[i]).MediaLine? {
          FeedbackMeaning(id, fs[i]);
        }
      }
    }
  }

  lemma FeedbackMeaning(id: string, f: Feedback)
    requires IsId(id) && Ends(FbText(f))
    ensures Meaning(RtcpFbOut(id, Or(f.kind, ""), f.subtype)) == RtcpFb(id, FbText(f))
  {
    hide Meaning;
    ReadRtcpFb(id, Or(f.kind, ""), f.subtype);
  }

  lemma FmtpMeaning(m: Media, id: string, params: seq<string>)
    requires IsId(id) && (params != [] ==> Ends(Join(params, ";")))
    ensures UpdateAll(m, FmtpLines(id, params)) ==
              m.(fmtp := m.fmtp + if params == [] then [] else [(id, Join(params, ";"))])
    ensures NoMedia(FmtpLines(id, params))
  {
    hide Meaning, Join, Ends;
    if params == [] {
      assert m.fmtp + [] == m.fmtp;
    } else {
      ReadFmtp(id, params);
      UpdateOne(m, FmtpOut(id, params));
    }
  }

  lemma RtpmapMeaning(p: Payload)
    requires IsId(Or(p.id, ""))
    ensures Meaning(RtpmapOut(Or(p.id, ""), Or(p.name, ""), Or(p.clockrate, "90000"), p.channels))
              == Rtpmap(Or(p.id, ""), TrimEnd(RtpmapText(p)))
  {
    hide Meaning, TrimEnd, RtpmapValue;
    RtpmapTextHasASlash(p);
    ReadRtpmap(Or(p.id, ""), Or(p.name, ""), Or(p.clockrate, "90000"), p.channels);
  }

  lemma UpdatePayload(m: Media, p: Payload)
    requires Readable(p)
    ensures UpdateAll(m, PayloadLines(p)) == WithPayload(m, p)
    ensures NoMedia(PayloadLines(p))
  {
    hide Meaning, TrimEnd, RtpmapText, Join, ParameterTexts, UpdateAll, IsId, Ends;
    var id := Or(p.id, "");
    var params := ParameterTexts(p.parameters);
    var rtpmap := RtpmapOut(id, Or(p.name, ""), Or(p.clockrate, "90000"), p.channels);
    RtpmapMeaning(p);
    UpdateOne(m, rtpmap);
    var m1 := m.(rtpmap := m.rtpmap + [NormalEntry(p)]);
    FmtpMeaning(m1, id, params);
    UpdateAppends(m, [rtpmap], FmtpLines(id, params));
    var m2 := m1.(fmtp := m1.fmtp + FmtpEntries(p));
    UpdateFeedback(m2, id, p.feedback);
    UpdateAppends(m, [rtpmap] + FmtpLines(id, params), FeedbackLines(id, p.feedback));
  }

  ghost predicate AllReadable(ps: seq<Payload>) {
    forall i :: 0 <= i < |ps| ==> Readable(ps[i])
  }

  lemma {:induction false} UpdatePayloads(m: Media, ps: seq<Payload>)
    requires AllReadable(ps)
    ensures UpdateAll(m, AllPayloadLines(ps)) == WithPayloads(m, ps)
    ensures NoMedia(AllPayloadLines(ps))
  {
    hide Meaning, Readable, PayloadLines, WithPayload, UpdateAll;
    if ps == [] {
      assert UpdateAll(m, []) == m by {
        UpdateNothing(m);
      }
    } else {
      var front, p := ps[..|ps| - 1], ps[|ps| - 1];
      UpdatePayloads(m, front);
      assert Readable(p);
      UpdatePayload(WithPayloads(m, front), p);
      UpdateAppends(m, AllPayloadLines(front), PayloadLines(p));
    }
  }

  lemma UpdateNothing(m: Media)
    ensures UpdateAll(m, []) == m
  {
  }

  // ---- one section -------------------------------------------------------

  function WithCandidates(m: Media, cs: seq<Candidate>): Media {
    if cs == [] then m
    else
      var before := WithCandidates(m, cs[..|cs| - 1]);
      match CandidateWords(cs[|cs| - 1])
      case Some(words) => before.(candidates := before.candidates + [Join(words, " ")])
      case None => before
  }

  ghost predicate HasWords(c: Candidate) {
    match CandidateWords(c) case Some(words) => AllWords(words) case None => true
  }

  lemma {:induction false} UpdateCandidates(m: Media, cs: seq<Candidate>)
    requires forall i :: 0 <= i < |cs| ==> HasWords(cs[i])
    ensures UpdateAll(m, CandidateLines(cs)) == WithCandidates(m, cs)
    ensures NoMedia(CandidateLines(cs))
  {
    hide Meaning, UpdateAll, Join;
    if cs == [] {
      UpdateNothing(m);
    } else {
      var front, c := cs[..|cs| - 1], cs[|cs| - 1];
      UpdateCandidates(m, front);
      UpdateAppends(m, CandidateLines(front), OneCandidate(c));
      UpdateNothing(WithCandidates(m, front));
      assert HasWords(c);
      if CandidateWords(c).Some? {
        CandidateMeaning(c);
        UpdateOne(WithCandidates(m, front), CandidateOut(CandidateWords(c).value));
      }
    }
  }

  lemma CandidateMeaning(c: Candidate)
    requires HasWords(c) && CandidateWords(c).Some?
    ensures Meaning(CandidateOut(CandidateWords(c).value)) == CandidateOf(Join(CandidateWords(c).value, " "))
  {
    hide Meaning;
    ReadCandidate(CandidateWords(c).value);
  }

  function WithFingerprint(m: Media, fingerprint: Option<Fingerprint>): Media {
    match fingerprint
    case Some(fp) =>
      m.(fingerprintHash := Or(fp.hash, "sha-256"), fingerprint := fp.text, setup := Or(fp.setup, "active"))
    case None => m
  }

  predicate FingerprintReadable(fingerprint: Option<Fingerprint>) {
    match fingerprint
    case Some(fp) => IsId(Or(fp.hash, "sha-256")) && IsValue(fp.text) && Field(Or(fp.setup, "active"))
    case None => true
  }

  lemma UpdateFingerprint(m: Media, fingerprint: Option<Fingerprint>)
    requires FingerprintReadable(fingerprint)
    ensures UpdateAll(m, FingerprintLines(fingerprint)) == WithFingerprint(m, fingerprint)
    ensures NoMedia(FingerprintLines(fingerprint))
  {
    hide Meaning, UpdateAll, AttributeLine;
    match fingerprint
    case Some(fp) =>
      var hash, setup := Or(fp.hash, "sha-256"), Or(fp.setup, "active");
      ReadFingerprint(hash, fp.text);
      ReadAttr("setup", setup);
      SimpleKeys(setup);
      UpdateOne(m, FingerprintOut(hash, fp.text));
      UpdateAppends(m, [FingerprintOut(hash, fp.text)], [AttrOut("setup", setup)]);
      UpdateOne(m.(fingerprintHash := hash, fingerprint := fp.text), AttrOut("setup", setup));
      assert FingerprintLines(fingerprint) == [FingerprintOut(hash, fp.text)] + [AttrOut("setup", setup)];
    case None =>
      UpdateNothing(m);
  }

  predicate BundleReadable(b: Bundle) {
    Field(b.ufrag) && Field(b.pwd) && FingerprintReadable(b.fingerprint)
  }

  lemma FieldMeaning(value: string)
    requires Field(value)
    ensures Meaning(AttrOut("mid", value)) == Mid(value)
    ensures Meaning(AttrOut("ice-ufrag", value)) == Ufrag(value)
    ensures Meaning(AttrOut("ice-pwd", value)) == Pwd(value)
  {
    hide Meaning, AttributeLine;
    SimpleKeys(value);
    ReadAttr("mid", value);
    ReadAttr("ice-ufrag", value);
    ReadAttr("ice-pwd", value);
  }

  function WithPreamble(m: Media, b: Bundle, mid: string): Media {
    WithFingerprint(m.(ufrag := b.ufrag, pwd := b.pwd), b.fingerprint).(mid := mid)
  }

  lemma UpdateCredentials(m: Media, b: Bundle)
    requires BundleReadable(b)
    ensures var lines := [FixedOut("c=IN IP4 0.0.0.0"), FixedOut("a=rtcp-mux"), AttrOut("ice-ufrag", b.ufrag),
                          AttrOut("ice-pwd", b.pwd), AttrOut("ice-options", "trickle")];
            UpdateAll(m, lines) == m.(ufrag := b.ufrag, pwd := b.pwd) && NoMedia(lines)
  {
    hide Meaning, UpdateAll;
    ReadOthers();
    FieldMeaning(b.ufrag);
    FieldMeaning(b.pwd);
    var l1, l2, l3 := FixedOut("c=IN IP4 0.0.0.0"), FixedOut("a=rtcp-mux"), AttrOut("ice-ufrag", b.ufrag);
    var l4, l5 := AttrOut("ice-pwd", b.pwd), AttrOut("ice-options", "trickle");
    var m3, m4 := m.(ufrag := b.ufrag), m.(ufrag := b.ufrag, pwd := b.pwd);
    UpdateOne(m, l1);
    UpdateOne(m, l2);
    UpdateOne(m, l3);
    UpdateOne(m3, l4);
    UpdateOne(m4, l5);
    UpdateAppends(m, [l1], [l2]);
    UpdateAppends(m, [l1] + [l2], [l3]);
    UpdateAppends(m, [l1] + [l2] + [l3], [l4]);
    UpdateAppends(m, [l1] + [l2] + [l3] + [l4], [l5]);
    assert [l1, l2, l3, l4, l5] == [l1] + [l2] + [l3] + [l4] + [l5];
  }

  lemma UpdatePreamble(m: Media, b: Bundle, mid: string)
    requires BundleReadable(b) && Field(mid)
    ensures UpdateAll(m, Preamble(b, mid)) == WithPreamble(m, b, mid)
    ensures NoMedia(Preamble(b, mid))
  {
    hide Meaning, UpdateAll, FingerprintLines;
    var credentials := [FixedOut("c=IN IP4 0.0.0.0"), FixedOut("a=rtcp-mux"), AttrOut("ice-ufrag", b.ufrag),
                        AttrOut("ice-pwd", b.pwd), AttrOut("ice-options", "trickle")];
    UpdateCredentials(m, b);
    var m1 := m.(ufrag := b.ufrag, pwd := b.pwd);
    UpdateFingerprint(m1, b.fingerprint);
    UpdateAppends(m, credentials, FingerprintLines(b.fingerprint));
    var m2 := WithFingerprint(m1, b.fingerprint);
    var l1, l2 := AttrOut("mid", mid), FixedOut("a=sendrecv");
    FieldMeaning(mid);
    ReadOthers();
    UpdateOne(m2, l1);
    UpdateOne(m2.(mid := mid), l2);
    UpdateAppends(m2, [l1], [l2]);
    assert [l1] + [l2] == [l1, l2];
    UpdateAppends(m, credentials + FingerprintLines(b.fingerprint), [l1, l2]);
  }

  function WithSource(m: Media, source: Option<Source>): Media {
    match source
    case Some(Source(Some(ssrc), cname)) =>
      m.(ssrc := if m.ssrc.None? then Some(ssrc) else m.ssrc,
         cname := if m.cname.None? then Some(Or(cname, "mxc")) else m.cname)
    case _ => m
  }

  predicate SourceReadable(source: Option<Source>) {
    match source
    case Some(Source(Some(ssrc), cname)) => IsId(ssrc) && Field(Or(cname, "mxc"))
    case _ => true
  }

  lemma UpdateSource(m: Media, source: Option<Source>)
    requires SourceReadable(source)
    ensures UpdateAll(m, SourceLines(source)) == WithSource(m, source)
    ensures NoMedia(SourceLines(source))
  {
    hide Meaning, UpdateAll;
    match source
    case Some(Source(Some(ssrc), cname)) =>
      var c := Or(cname, "mxc");
      ReadSsrc(ssrc, c);
      CnameStripped(c);
      UpdateOne(m, SsrcOut(ssrc, c));
    case _ =>
      UpdateNothing(m);
  }

  lemma CnameStripped(c: string)
    ensures StripPrefix("cname:" + c, "cname:") == Some(c)
  {
    assert ("cname:" + c)[6..] == c;
  }

  ghost predicate ContentReadable(c: Content) {
    && c.description.Some? && c.transport.Some?
    && IsKind(Or(c.description.value.media, "audio"))
    && Field(Or(c.name, "0"))
    && AllReadable(c.description.value.payloads)
    && SourceReadable(c.description.value.source)
    && forall i :: 0 <= i < |c.transport.value.candidates| ==> HasWords(c.transport.value.candidates[i])
  }

  /** The media section a content is read back as. */
  function SectionMedia(b: Bundle, c: Content): Media
    requires c.description.Some? && c.transport.Some?
  {
    var d := c.description.value;
    var kind := Or(d.media, "audio");
    var m1 := WithPreamble(NewMedia(if kind == "" then "9" else kind), b, Or(c.name, "0"));
    WithCandidates(WithSource(WithPayloads(m1, d.payloads), d.source), c.transport.value.candidates)
  }

  lemma UpdateSection(m: Media, b: Bundle, c: Content)
    requires BundleReadable(b) && ContentReadable(c)
    ensures var d := c.description.value;
            var lines := Preamble(b, Or(c.name, "0")) + AllPayloadLines(d.payloads) + SourceLines(d.source)
                         + CandidateLines(c.transport.value.candidates);
            && UpdateAll(m, lines) ==
                 WithCandidates(WithSource(WithPayloads(WithPreamble(m, b, Or(c.name, "0")), d.payloads), d.source),
                                c.transport.value.candidates)
            && NoMedia(lines)
  {
    hide Meaning, UpdateAll, Preamble, AllPayloadLines, SourceLines, CandidateLines;
    hide WithPreamble, WithPayloads, WithSource, WithCandidates, Readable;
    var d, cs, mid := c.description.value, c.transport.value.candidates, Or(c.name, "0");
    var m1 := WithPreamble(m, b, mid);
    UpdatePreamble(m, b, mid);
    var m2 := WithPayloads(m1, d.payloads);
    UpdatePayloads(m1, d.payloads);
    UpdateAppends(m, Preamble(b, mid), AllPayloadLines(d.payloads));
    var m3 := WithSource(m2, d.source);
    UpdateSource(m2, d.source);
    UpdateAppends(m, Preamble(b, mid) + AllPayloadLines(d.payloads), SourceLines(d.source));
    UpdateCandidates(m3, cs);
    UpdateAppends(m, Preamble(b, mid) + AllPayloadLines(d.payloads) + SourceLines(d.source), CandidateLines(cs));
  }

  lemma AddSection(media: seq<Media>, b: Bundle, c: Content)
    requires BundleReadable(b) && ContentReadable(c)
    ensures AddOut(media, SectionLines(b, c)) == media + [SectionMedia(b, c)]
  {
    hide Meaning, UpdateAll, Preamble, AllPayloadLines, SourceLines, CandidateLines, AddOut;
    hide WithPreamble, WithPayloads, WithSource, WithCandidates, AllReadable, NoMedia;
    var d := c.description.value;
    var kind := Or(d.media, "audio");
    var l := MediaOut(kind, Ids(d.payloads));
    var lines := Preamble(b, Or(c.name, "0")) + AllPayloadLines(d.payloads) + SourceLines(d.source)
                 + CandidateLines(c.transport.value.candidates);
    ReadMedia(kind, Ids(d.payloads));
    var m := NewMedia(if kind == "" then "9" else kind);
    UpdateSection(m, b, c);
    AddOne(media, l);
    AddAppends(media, [l], lines);
    AddToLast(media, m, lines);
    Regroup([l], Preamble(b, Or(c.name, "0")), AllPayloadLines(d.payloads), SourceLines(d.source),
            CandidateLines(c.transport.value.candidates));
  }

  lemma Regroup<T>(a: seq<T>, b: seq<T>, c: seq<T>, d: seq<T>, e: seq<T>)
    ensures a + b + c + d + e == a + (b + c + d + e)
  {
  }

  lemma AddOne(media: seq<Media>, l: OutLine)
    ensures AddOut(media, [l]) == Add(media, Meaning(l))
  {
    hide Meaning, Add;
    assert [l][..0] == [];
  }

  ghost predicate AllContentsReadable(cs: seq<Content>) {
    forall i :: 0 <= i < |cs| ==> ContentReadable(cs[i])
  }

  function SectionMedias(b: Bundle, cs: seq<Content>): (r: seq<Media>)
    requires forall i :: 0 <= i < |cs| ==> cs[i].description.Some? && cs[i].transport.Some?
    ensures |r| == |cs| && forall i :: 0 <= i < |cs| ==> r[i] == SectionMedia(b, cs[i])
  {
    seq(|cs|, i requires 0 <= i < |cs| => SectionMedia(b, cs[i]))
  }

  lemma {:induction false} AddSections(b: Bundle, cs: seq<Content>)
    requires BundleReadable(b) && AllContentsReadable(cs)
    ensures AddOut([], AllSectionLines(b, cs)) == SectionMedias(b, cs)
  {
    hide AddOut, SectionLines, SectionMedia;
    if cs == [] {
      AddToNone([]);
    } else {
      var front, c := cs[..|cs| - 1], cs[|cs| - 1];
      AddSections(b, front);
      assert ContentReadable(c);
      AddSection(SectionMedias(b, front), b, c);
      AddAppends([], AllSectionLines(b, front), SectionLines(b, c));
      assert SectionMedias(b, cs) == SectionMedias(b, front) + [SectionMedia(b, c)];
    }
  }

  /** What the written lines are read back as. */
  lemma ReadSdpLines(cs: seq<Content>)
    requires BundleReadable(BundleOf(cs)) && AllContentsReadable(cs)
    ensures AddOut([], SdpLines(cs)) == SectionMedias(BundleOf(cs), cs)
  {
    hide AddOut, SectionMedias, AllSectionLines, Header;
    ReadHeader(Mids(cs));
    AddToNone(Header(Mids(cs)));
    AddAppends([], Header(Mids(cs)), AllSectionLines(BundleOf(cs), cs));
    AddSections(BundleOf(cs), cs);
  }
}
