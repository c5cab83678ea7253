/** Sections written, parsed and written again. */
module SdpSections {
  import opened Wrappers
  import opened Text
  import opened Words
  import opened Sdp
  import opened SdpParsed
  import opened SdpReadBack
  import opened SdpNormal
  import opened SdpContents

  // ---- no line end inside a line -----------------------------------------

  lemma WordIsOnOneLine(w: string)
    requires IsWord(w)
    ensures OnOneLine(w)
  {
    assert IsWhitespace('\n');
  }

  lemma FeedbackWords(value: string)
    requires IsValue(value)
    ensures var f := FeedbackOf(value); OnOneLine(Or(f.kind, "")) && (f.subtype.Some? ==> OnOneLine(f.subtype.value))
  {
    hide WordsOf;
    WordsAreWords(value);
    var words := WordsOf(value);
    if |words| >= 1 {
      WordIsOnOneLine(words[0]);
    }
    if |words| >= 2 {
      WordIsOnOneLine(words[1]);
    }
  }

  lemma TidyPayload(m: Media, e: Entry)
    requires WellFormed(m) && IsEntry(e)
    ensures Tidy(PayloadLines(PayloadOf(m, e)))
  {
    hide Split, ParametersIn, ParameterTexts, AllFor, FirstFor, FeedbackOf, WellFormed, IsParam, IsValue;
    var p := PayloadOf(m, e);
    ValueIsOnOneLine(e.1);
    SplitIsInside(e.1, '/', '\n');
    assert OnOneLine("90000");
    ParamsForAreParams(m, e.0);
    var ts := ParamsFor(m, e.0);
    assert ParameterTexts(p.parameters) == ts;
    forall i | 0 <= i < |ts| ensures '\n' !in ts[i] {
      ParamIsOnOneLine(ts[i]);
    }
    JoinedAvoids(ts, ";", '\n');
    var values := AllFor(m.rtcpFb, e.0);
    RtcpFbIsWellFormed(m);
    AllForAreValues(m.rtcpFb, e.0);
    AllFeedbackAt(values);
    forall i | 0 <= i < |p.feedback| ensures OnOneLine(Show(FeedbackLines(e.0, p.feedback)[i])) {
      FeedbackWords(values[i]);
    }
  }

  lemma RtcpFbIsWellFormed(m: Media)
    requires WellFormed(m)
    ensures AllEntries(m.rtcpFb) && AllEntries(m.rtpmap)
  {
  }

  lemma ValueIsOnOneLine(s: string)
    requires IsValue(s)
    ensures OnOneLine(s)
  {
  }

  lemma ParamIsOnOneLine(t: string)
    requires IsParam(t)
    ensures OnOneLine(t)
  {
  }

  lemma TidyAppends(a: seq<OutLine>, b: seq<OutLine>)
    requires Tidy(a) && Tidy(b)
    ensures Tidy(a + b)
  {
    hide Show;
  }

  lemma {:induction false} TidyPayloads(m: Media, es: seq<Entry>)
    requires WellFormed(m) && AllEntries(es)
    ensures Tidy(AllPayloadLines(PayloadsOf(m, es)))
  {
    hide Tidy, PayloadLines, PayloadOf, WellFormed, IsEntry;
    if es == [] {
      assert Tidy([]) by {
        NothingIsTidy();
      }
    } else {
      var front, e := es[..|es| - 1], es[|es| - 1];
      TidyPayloads(m, front);
      assert PayloadsOf(m, es)[..|es| - 1] == PayloadsOf(m, front);
      assert IsEntry(e);
      TidyPayload(m, e);
      TidyAppends(AllPayloadLines(PayloadsOf(m, front)), PayloadLines(PayloadOf(m, e)));
    }
  }

  lemma NothingIsTidy()
    ensures Tidy([])
  {
  }

  lemma {:induction false} TidyCandidates(cs: seq<Candidate>)
    requires forall i :: 0 <= i < |cs| ==> HasWords(cs[i])
    ensures Tidy(CandidateLines(cs))
  {
    hide CandidateWords, Show;
    if cs != [] {
      var c := cs[|cs| - 1];
      TidyCandidates(cs[..|cs| - 1]);
      assert HasWords(c);
      TidyCandidate(c);
    }
  }

  lemma TidyCandidate(c: Candidate)
    requires HasWords(c)
    ensures Tidy(OneCandidate(c))
  {
    hide CandidateWords, Join;
    if CandidateWords(c).Some? {
      var words := CandidateWords(c).value;
      forall i | 0 <= i < |words| ensures '\n' !in words[i] {
        assert IsWord(words[i]);
        WordIsOnOneLine(words[i]);
      }
      JoinedAvoids(words, " ", '\n');
    }
  }

  lemma AttrIsOnOneLine(key: string, value: string)
    requires OnOneLine(key) && OnOneLine(value)
    ensures OnOneLine(Show(AttrOut(key, value)))
  {
  }

  lemma FixedAreOnOneLine()
    ensures OnOneLine("c=IN IP4 0.0.0.0") && OnOneLine("a=rtcp-mux") && OnOneLine("a=sendrecv")
    ensures OnOneLine("ice-options") && OnOneLine("trickle")
    ensures OnOneLine("ice-ufrag") && OnOneLine("ice-pwd") && OnOneLine("mid")
  {
  }

  lemma FixedIsItself(text: string)
    ensures Show(FixedOut(text)) == text
  {
  }

  lemma TidyPreamble(b: Bundle, mid: string)
    requires BundleReadable(b) && Field(mid)
    ensures Tidy(Preamble(b, mid))
  {
    TidyFingerprint(b.fingerprint);
    hide FingerprintLines, FingerprintReadable, Show, Ends;
    FixedAreOnOneLine();
    FixedIsItself("c=IN IP4 0.0.0.0");
    FixedIsItself("a=rtcp-mux");
    FixedIsItself("a=sendrecv");
    AttrIsOnOneLine("ice-options", "trickle");
    AttrIsOnOneLine("ice-ufrag", b.ufrag);
    AttrIsOnOneLine("ice-pwd", b.pwd);
    AttrIsOnOneLine("mid", mid);
    hide OnOneLine;
  }

  lemma TidyFingerprint(fingerprint: Option<Fingerprint>)
    requires FingerprintReadable(fingerprint)
    ensures Tidy(FingerprintLines(fingerprint))
  {
  }

  lemma TidySource(source: Option<Source>)
    requires SourceReadable(source)
    ensures Tidy(SourceLines(source))
  {
  }

  lemma {:induction false} TidyIds(ps: seq<Payload>)
    requires forall i :: 0 <= i < |ps| ==> OnOneLine(Or(ps[i].id, ""))
    ensures forall i :: 0 <= i < |Ids(ps)| ==> '\n' !in Ids(ps)[i]
  {
    if ps != [] {
      TidyIds(ps[..|ps| - 1]);
      assert OnOneLine(Or(ps[|ps| - 1].id, ""));
    }
  }

  lemma TidyMedia(kind: string, ps: seq<Payload>)
    requires OnOneLine(kind) && forall i :: 0 <= i < |ps| ==> OnOneLine(Or(ps[i].id, ""))
    ensures Tidy([MediaOut(kind, Ids(ps))])
  {
    hide Ids, Join;
    TidyIds(ps);
    JoinedAvoids(Ids(ps), " ", '\n');
  }

  lemma TidySection(lower: Lower, b: Bundle, m: Media)
    requires LowerLaw(lower) && BundleReadable(b) && WellFormed(m)
    ensures Tidy(SectionLines(b, ContentOf(lower, m)))
  {
    hide Tidy, Preamble, AllPayloadLines, SourceLines, CandidateLines, HasWords, BundleReadable, CandidatesFrom;
    var c := ContentOf(lower, m);
    var d := c.description.value;
    KindIsField(m.kind);
    TidyMedia(m.kind, d.payloads);
    TidyPreamble(b, NameOf(m));
    TidyPayloads(m, m.rtpmap);
    TidySource(d.source);
    CandidatesHaveWords(lower, m.candidates);
    TidyCandidates(c.transport.value.candidates);
    var l1 := [MediaOut(m.kind, Ids(d.payloads))];
    TidyAppends(l1, Preamble(b, NameOf(m)));
    TidyAppends(l1 + Preamble(b, NameOf(m)), AllPayloadLines(d.payloads));
    TidyAppends(l1 + Preamble(b, NameOf(m)) + AllPayloadLines(d.payloads), SourceLines(d.source));
    TidyAppends(l1 + Preamble(b, NameOf(m)) + AllPayloadLines(d.payloads) + SourceLines(d.source),
                CandidateLines(c.transport.value.candidates));
  }

  lemma {:induction false} TidySections(lower: Lower, b: Bundle, ms: seq<Media>)
    requires LowerLaw(lower) && BundleReadable(b) && AllWellFormed(ms)
    ensures Tidy(AllSectionLines(b, ContentsOf(lower, ms)))
  {
    hide Tidy, SectionLines, ContentOf, WellFormed, BundleReadable, LowerLaw;
    if ms == [] {
      NothingIsTidy();
    } else {
      var front, m := ms[..|ms| - 1], ms[|ms| - 1];
      TidySections(lower, b, front);
      assert ContentsOf(lower, ms)[..|ms| - 1] == ContentsOf(lower, front);
      assert WellFormed(m);
      TidySection(lower, b, m);
      TidyAppends(AllSectionLines(b, ContentsOf(lower, front)), SectionLines(b, ContentOf(lower, m)));
    }
  }

  lemma OriginIsOnOneLine()
    ensures OnOneLine("o=- 8770656990916039506 2 IN IP4 127.0.0.1")
  {
  }

  lemma HeaderIsOnOneLine()
    ensures OnOneLine("v=0") && OnOneLine("s=-") && OnOneLine("t=0 0")
    ensures OnOneLine("msid-semantic") && OnOneLine(" WMS")
  {
  }

  lemma GroupIsOnOneLine(mids: seq<string>)
    requires forall i :: 0 <= i < |mids| ==> '\n' !in mids[i]
    ensures OnOneLine(Show(GroupOut(mids)))
  {
    hide Join;
    JoinedAvoids(mids, " ", '\n');
  }

  lemma TidyHeader(mids: seq<string>)
    requires forall i :: 0 <= i < |mids| ==> '\n' !in mids[i]
    ensures Tidy(Header(mids))
  {
    hide Show, OnOneLine;
    OriginIsOnOneLine();
    HeaderIsOnOneLine();
    FixedIsItself("v=0");
    FixedIsItself("o=- 8770656990916039506 2 IN IP4 127.0.0.1");
    FixedIsItself("s=-");
    FixedIsItself("t=0 0");
    AttrIsOnOneLine("msid-semantic", " WMS");
    GroupIsOnOneLine(mids);
  }

  lemma TidySdp(lower: Lower, ms: seq<Media>)
    requires LowerLaw(lower) && AllWellFormed(ms)
    ensures Tidy(SdpLines(ContentsOf(lower, ms)))
  {
    hide Tidy, AllSectionLines, Header, LowerLaw, BundleReadable, BundleOf;
    var cs := ContentsOf(lower, ms);
    BundleIsReadable(lower, ms);
    forall i | 0 <= i < |ms| ensures '\n' !in Mids(cs)[i] {
      assert WellFormed(ms[i]);
      KindIsField(ms[i].kind);
    }
    TidyHeader(Mids(cs));
    TidySections(lower, BundleOf(cs), ms);
    TidyAppends(Header(Mids(cs)), AllSectionLines(BundleOf(cs), cs));
  }

  // ---- parsing what was written ------------------------------------------

  /** The media sections after one round of translation. */
  function NormalForm(lower: Lower, ms: seq<Media>): (r: seq<Media>)
    ensures |r| == |ms|
    ensures forall i :: 0 <= i < |ms| ==> r[i] == SectionMedia(BundleOf(ContentsOf(lower, ms)), ContentOf(lower, ms[i]))
  {
    SectionMedias(BundleOf(ContentsOf(lower, ms)), ContentsOf(lower, ms))
  }

  lemma WrittenIsParsed(lower: Lower, ms: seq<Media>)
    requires LowerLaw(lower) && AllWellFormed(ms)
    ensures AddAll([], Lines(TextOf(PrintLine, SdpLines(ContentsOf(lower, ms))))) == NormalForm(lower, ms)
    ensures AllWellFormed(NormalForm(lower, ms))
  {
    hide SdpLines, Tidy, AddAll, AddOut, TextOf, Lines, AllWellFormed, LowerLaw, BundleOf;
    var cs := ContentsOf(lower, ms);
    TidySdp(lower, ms);
    LinesOfText(SdpLines(cs));
    AddShown([], SdpLines(cs));
    ContentsAreReadable(lower, ms);
    ReadSdpLines(cs);
    ParsedIsWellFormed(TextOf(PrintLine, SdpLines(cs)));
  }
}
