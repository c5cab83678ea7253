/** Jingle contents written as an SDP and read back: nothing is lost on the way. */
module SdpJingle {
  import opened Wrappers
  import opened Text
  import opened Words
  import opened Sdp
  import opened SdpParsed
  import opened SdpReadBack
  import opened SdpNormal
  import opened SdpContents
  import opened SdpPayloads
  import opened SdpReread
  import opened SdpSections
  import opened SdpStable

  // ---- contents an SDP has room for ---------------------------------------

  /** Every attribute is a word, as candidates are made of words, and the protocol is in lower case. */
  predicate CandidateOk(lower: Lower, c: Candidate) {
    && c.foundation.Some? && c.component.Some? && c.protocol.Some? && c.priority.Some? && c.ip.Some? && c.port.Some?
    && IsWord(c.foundation.value) && IsWord(c.component.value) && IsWord(c.protocol.value)
    && IsWord(c.priority.value) && IsWord(c.ip.value) && IsWord(c.port.value)
    && OptionalWord(c.kind) && OptionalWord(c.relAddr) && OptionalWord(c.relPort)
    && c.generation.Some? && IsWord(c.generation.value)
    && lower(c.protocol.value) == c.protocol.value
  }

  /** A name without an equals sign, and a pair that fits between two semicolons. */
  predicate ParameterOk(p: Parameter) {
    p.name.Some? && p.value.Some? && '=' !in p.name.value && IsParam(p.name.value + "=" + p.value.value)
  }

  predicate FeedbackOk(f: Feedback) {
    f.kind.Some? && IsWord(f.kind.value) && OptionalWord(f.subtype)
  }

  /** A name, a clock rate and channels that fit between slashes and do not lose their end. */
  predicate RtpmapOk(p: Payload) {
    && p.name.Some? && NoSlash(p.name.value) && OnOneLine(p.name.value)
    && p.clockrate.Some? && NoSlash(p.clockrate.value) && OnOneLine(p.clockrate.value) && p.clockrate.value != ""
    && (match p.channels
        case Some(ch) => NoSlash(ch) && Field(ch)
        case None => Ends(p.clockrate.value))
  }

  predicate PayloadOk(p: Payload) {
    && p.id.Some? && IsId(p.id.value) && RtpmapOk(p)
    && (forall i :: 0 <= i < |p.parameters| ==> ParameterOk(p.parameters[i]))
    && (forall i :: 0 <= i < |p.feedback| ==> FeedbackOk(p.feedback[i]))
  }

  predicate PayloadsOk(ps: seq<Payload>) {
    && (forall i :: 0 <= i < |ps| ==> PayloadOk(ps[i]))
    && (forall i, j :: 0 <= i < j < |ps| ==> ps[i].id != ps[j].id)
  }

  predicate SourceOk(source: Option<Source>) {
    match source
    case Some(Source(Some(ssrc), Some(cname))) => IsId(ssrc) && Field(cname)
    case Some(_) => false
    case None => true
  }

  predicate FingerprintOk(fingerprint: Option<Fingerprint>) {
    match fingerprint
    case Some(Fingerprint(Some(hash), Some(setup), text)) => IsId(hash) && setup != "" && Field(setup) && IsValue(text)
    case Some(_) => false
    case None => true
  }

  /** A named content that carries the shared credentials. */
  predicate ContentOk(lower: Lower, b: Bundle, c: Content) {
    && c.name.Some? && c.name.value != "" && Field(c.name.value)
    && c.description.Some? && c.transport.Some?
    && (var d := c.description.value;
        && d.media.Some? && IsWord(d.media.value) && PayloadsOk(d.payloads) && SourceOk(d.source))
    && (var t := c.transport.value;
        && t.ufrag == Some(b.ufrag) && t.pwd == Some(b.pwd) && t.fingerprint == b.fingerprint
        && forall i :: 0 <= i < |t.candidates| ==> CandidateOk(lower, t.candidates[i]))
  }

  predicate ContentsOk(lower: Lower, cs: seq<Content>) {
    var b := BundleOf(cs);
    && Field(b.ufrag) && Field(b.pwd) && FingerprintOk(b.fingerprint)
    && forall i :: 0 <= i < |cs| ==> ContentOk(lower, b, cs[i])
  }

  // ---- one candidate -------------------------------------------------------

  lemma CandidateSurvives(lower: Lower, c: Candidate)
    requires CandidateOk(lower, c)
    ensures CandidateWords(c).Some? && HasWords(c)
    ensures CandidateFrom(lower, Join(CandidateWords(c).value, " ")) == Some(c)
  {
    hide ExtraOf, Join, WordsOf, IsWord;
    FieldsMakeWords(c);
    var words := CandidateWords(c).value;
    WordsOfJoined(words);
    var head := [c.foundation.value, c.component.value, c.protocol.value, c.priority.value, c.ip.value, c.port.value];
    var g := c.generation.value;
    assert words == head + Pair("typ", c.kind) + Pair("raddr", c.relAddr) + Pair("rport", c.relPort) + ["generation", g];
    ExtrasOfWords(head, c.kind, c.relAddr, c.relPort, g, "typ");
    ExtrasOfWords(head, c.kind, c.relAddr, c.relPort, g, "raddr");
    ExtrasOfWords(head, c.kind, c.relAddr, c.relPort, g, "rport");
    ExtrasOfWords(head, c.kind, c.relAddr, c.relPort, g, "generation");
    assert "typ"[0] != "raddr"[0] && "raddr"[1] != "rport"[1] && |"generation"| == 10;
  }

  lemma {:induction false} CandidatesSurvive(lower: Lower, cs: seq<Candidate>)
    requires forall i :: 0 <= i < |cs| ==> CandidateOk(lower, cs[i])
    ensures CandidatesFrom(lower, CandidateTexts(cs)) == cs
  {
    hide CandidateFrom, CandidateWords, Join, CandidateOk;
    if cs != [] {
      var c, rest := cs[0], cs[1..];
      CandidatesSurvive(lower, rest);
      CandidateSurvives(lower, c);
      TextsOfCons(c, rest);
      assert cs == [c] + rest;
      var text, texts := Join(CandidateWords(c).value, " "), CandidateTexts(rest);
      assert ([text] + texts)[1..] == texts;
    }
  }

  // ---- one payload ---------------------------------------------------------

  lemma ParameterSurvives(p: Parameter)
    requires ParameterOk(p)
    ensures SplitOnce(Trim(p.name.value + "=" + p.value.value), '=') == Some((p.name.value, p.value.value))
  {
    var t := p.name.value + "=" + p.value.value;
    TrimOfTrimmed(t);
    SplitOnceAt(p.name.value, '=', p.value.value);
    assert t == p.name.value + ['='] + p.value.value;
  }

  lemma {:induction false} ParametersSurvive(ps: seq<Parameter>)
    requires forall i :: 0 <= i < |ps| ==> ParameterOk(ps[i])
    ensures ParametersIn(ParameterTexts(ps)) == ps && AllParams(ParameterTexts(ps))
    ensures ParameterTexts(ps) == [] <==> ps == []
  {
    hide Trim, SplitOnce, IsParam;
    if ps != [] {
      var p, rest := ps[0], ps[1..];
      ParametersSurvive(rest);
      assert ParameterOk(p);
      ParameterSurvives(p);
      var t, texts := p.name.value + "=" + p.value.value, ParameterTexts(rest);
      assert ([t] + texts)[1..] == texts;
      assert ps == [p] + rest && p == Parameter(Some(p.name.value), Some(p.value.value));
    }
  }

  lemma FormatSurvives(ps: seq<Parameter>)
    requires ps != [] && forall i :: 0 <= i < |ps| ==> ParameterOk(ps[i])
    ensures ParametersIn(Split(Join(ParameterTexts(ps), ";"), ';')) == ps
  {
    hide ParametersIn, ParameterTexts, Split, Join, ParameterOk;
    ParametersSurvive(ps);
    var ts := ParameterTexts(ps);
    forall i | 0 <= i < |ts| ensures ';' !in ts[i] {
      ParamHasNoSemicolon(ts[i]);
    }
    SplitUndoesJoin(ts, ';');
    assert [';'] == ";";
  }

  lemma FeedbackSurvives(f: Feedback)
    requires FeedbackOk(f)
    ensures FeedbackOf(FbText(f)) == f && Ends(FbText(f)) && OnOneLine(FbText(f))
  {
    hide WordsOf;
    var kind := f.kind.value;
    WordIsOnOneLine(kind);
    match f.subtype
    case Some(s) =>
      FirstWord(kind, s);
      OneWord(s);
      WordIsOnOneLine(s);
      assert FbText(f) == kind + " " + s;
      assert Ends(s) ==> Ends(kind + " " + s);
    case None =>
      OneWord(kind);
      assert FbText(f) == kind;
  }

  lemma {:induction false} FeedbacksSurvive(fs: seq<Feedback>, texts: seq<string>)
    requires |texts| == |fs| && forall i :: 0 <= i < |fs| ==> FeedbackOk(fs[i]) && texts[i] == FbText(fs[i])
    ensures AllFeedback(texts) == fs
  {
    hide FeedbackOk, FbText, FeedbackOf;
    if fs != [] {
      FeedbacksSurvive(fs[1..], texts[1..]);
      FeedbackSurvives(fs[0]);
      assert fs == [fs[0]] + fs[1..];
    }
  }

  lemma RtpmapSurvives(p: Payload)
    requires RtpmapOk(p)
    ensures TrimEnd(RtpmapText(p)) == RtpmapText(p)
    ensures Split(RtpmapText(p), '/') ==
              [p.name.value, p.clockrate.value] + (match p.channels case Some(ch) => [ch] case None => [])
    ensures OnOneLine(RtpmapText(p))
  {
    hide TrimEnd, Split, RtpmapValue;
    TrimmedValue(p.name.value, p.clockrate.value, p.channels);
    if p.channels.Some? {
      FieldIsTrimmed(p.channels.value);
    }
    assert TrimmedChannels(p.channels) == p.channels;
    SplitThree(p.name.value, p.clockrate.value, p.channels);
    RtpmapIsOnOneLine(p);
  }

  lemma RtpmapIsOnOneLine(p: Payload)
    requires RtpmapOk(p)
    ensures OnOneLine(RtpmapText(p))
  {
  }

  lemma FmtpAt(p: Payload, id: string)
    requires PayloadOk(p)
    ensures FirstFor(FmtpEntries(p), id) ==
              if p.id.value == id && p.parameters != [] then Some(Join(ParameterTexts(p.parameters), ";")) else None
  {
    hide Join, ParameterTexts, ParameterOk;
    ParametersSurvive(p.parameters);
  }

  lemma {:induction false} FmtpOfOthers(ps: seq<Payload>, id: string)
    requires forall i :: 0 <= i < |ps| ==> PayloadOk(ps[i]) && ps[i].id != Some(id)
    ensures FirstFor(GatheredFmtp(ps), id) == None
  {
    hide PayloadOk, FmtpEntries;
    if ps != [] {
      var front, p := ps[..|ps| - 1], ps[|ps| - 1];
      FmtpOfOthers(front, id);
      IdIsSome(p);
      FmtpAt(p, id);
      FirstForAppended(GatheredFmtp(front), FmtpEntries(p), id);
    }
  }

  lemma IdIsSome(p: Payload)
    requires PayloadOk(p)
    ensures p.id.Some?
  {
  }

  lemma {:induction false} FmtpFound(ps: seq<Payload>, k: nat)
    requires PayloadsOk(ps) && k < |ps|
    ensures ps[k].id.Some?
    ensures FirstFor(GatheredFmtp(ps), ps[k].id.value) ==
              if ps[k].parameters == [] then None else Some(Join(ParameterTexts(ps[k].parameters), ";"))
  {
    hide PayloadOk, FmtpEntries, Join, ParameterTexts;
    var front, p := ps[..|ps| - 1], ps[|ps| - 1];
    IdIsSome(ps[k]);
    IdIsSome(p);
    var id := ps[k].id.value;
    FmtpAt(p, id);
    FirstForAppended(GatheredFmtp(front), FmtpEntries(p), id);
    if k < |front| {
      FmtpFound(front, k);
      assert ps[k].id != p.id;
    } else {
      FmtpOfOthers(front, id);
    }
  }

  function FeedbackTexts(fs: seq<Feedback>): (r: seq<string>)
    ensures |r| == |fs| && forall i :: 0 <= i < |fs| ==> r[i] == FbText(fs[i])
  {
    seq(|fs|, i requires 0 <= i < |fs| => FbText(fs[i]))
  }

  lemma FbAt(p: Payload, id: string)
    requires PayloadOk(p)
    ensures AllFor(FbEntries(Or(p.id, ""), p.feedback), id) == if p.id.value == id then FeedbackTexts(p.feedback) else []
  {
    hide FbText, FeedbackOk;
    AllForOne(p.id.value, id, FeedbackTexts(p.feedback), FbEntries(p.id.value, p.feedback));
  }

  lemma {:induction false} FbOfOthers(ps: seq<Payload>, id: string)
    requires forall i :: 0 <= i < |ps| ==> PayloadOk(ps[i]) && ps[i].id != Some(id)
    ensures AllFor(GatheredFb(ps), id) == []
  {
    hide PayloadOk, FbEntries, FeedbackTexts;
    if ps != [] {
      var front, p := ps[..|ps| - 1], ps[|ps| - 1];
      FbOfOthers(front, id);
      IdIsSome(p);
      FbAt(p, id);
      AllForAppended(GatheredFb(front), FbEntries(Or(p.id, ""), p.feedback), id);
    }
  }

  lemma {:induction false} FbFound(ps: seq<Payload>, k: nat)
    requires PayloadsOk(ps) && k < |ps|
    ensures ps[k].id.Some?
    ensures AllFor(GatheredFb(ps), ps[k].id.value) == FeedbackTexts(ps[k].feedback)
  {
    hide PayloadOk, FbEntries, FeedbackTexts;
    var front, p := ps[..|ps| - 1], ps[|ps| - 1];
    IdIsSome(ps[k]);
    IdIsSome(p);
    var id := ps[k].id.value;
    FbAt(p, id);
    AllForAppended(GatheredFb(front), FbEntries(Or(p.id, ""), p.feedback), id);
    if k < |front| {
      FbFound(front, k);
      assert ps[k].id != p.id;
      assert FeedbackTexts(ps[k].feedback) + [] == FeedbackTexts(ps[k].feedback);
    } else {
      FbOfOthers(front, id);
      assert [] + FeedbackTexts(p.feedback) == FeedbackTexts(p.feedback);
    }
  }

  lemma PayloadOfParts(m: Media, id: string, value: string, p: Payload)
    requires p.id == Some(id) && p.name.Some? && p.clockrate.Some? && p.clockrate.value != ""
    requires Split(value, '/') == [p.name.value, p.clockrate.value] + (match p.channels case Some(ch) => [ch] case None => [])
    requires p.parameters == match FirstFor(m.fmtp, id) case Some(ps) => ParametersIn(Split(ps, ';')) case None => []
    requires p.feedback == AllFeedback(AllFor(m.rtcpFb, id))
    ensures PayloadOf(m, (id, value)) == p
  {
    hide FirstFor, AllFor, AllFeedback, ParametersIn, Split;
    var parts := Split(value, '/');
    assert parts[0] == p.name.value && parts[1] == p.clockrate.value;
    assert p.channels.Some? ==> parts[2] == p.channels.value;
  }

  lemma ParametersFound(ps: seq<Payload>, k: nat)
    requires PayloadsOk(ps) && k < |ps|
    ensures ps[k].id.Some?
    ensures ps[k].parameters ==
              match FirstFor(GatheredFmtp(ps), ps[k].id.value)
              case Some(text) => ParametersIn(Split(text, ';'))
              case None => []
  {
    hide GatheredFmtp, FirstFor, ParametersIn, ParameterTexts, Split, Join, ParameterOk, RtpmapOk, FeedbackOk;
    FmtpFound(ps, k);
    assert PayloadOk(ps[k]);
    if ps[k].parameters != [] {
      FormatSurvives(ps[k].parameters);
    }
  }

  lemma FeedbackFound(ps: seq<Payload>, k: nat)
    requires PayloadsOk(ps) && k < |ps|
    ensures ps[k].id.Some?
    ensures ps[k].feedback == AllFeedback(AllFor(GatheredFb(ps), ps[k].id.value))
  {
    hide GatheredFb, AllFor, AllFeedback, FbText, FeedbackOk, ParameterOk, RtpmapOk;
    FbFound(ps, k);
    assert PayloadOk(ps[k]);
    FeedbacksSurvive(ps[k].feedback, FeedbackTexts(ps[k].feedback));
  }

  /** A payload, looked up in the section its lines were read into. */
  lemma PayloadSurvives(m: Media, ps: seq<Payload>, k: nat)
    requires PayloadsOk(ps) && k < |ps| && m.fmtp == GatheredFmtp(ps) && m.rtcpFb == GatheredFb(ps)
    ensures PayloadOf(m, NormalEntry(ps[k])) == ps[k]
  {
    hide GatheredFmtp, GatheredFb, FirstFor, AllFor, AllFeedback, ParametersIn, Split, TrimEnd, RtpmapText, PayloadOf;
    hide ParameterOk, FeedbackOk, IsId, Ends, Field;
    var p := ps[k];
    assert PayloadOk(p);
    RtpmapSurvives(p);
    ParametersFound(ps, k);
    FeedbackFound(ps, k);
    PayloadOfParts(m, p.id.value, RtpmapText(p), p);
  }

  // ---- one content ---------------------------------------------------------

  lemma SectionOf(b: Bundle, c: Content)
    requires c.description.Some? && c.transport.Some? && c.name.Some?
    requires c.description.value.media.Some? && c.description.value.media.value != ""
    ensures var m := SectionMedia(b, c);
            var d := c.description.value;
            && m.kind == d.media.value && m.mid == c.name.value && Carries(m, b)
            && m.rtpmap == NormalEntries(d.payloads) && m.fmtp == GatheredFmtp(d.payloads) && m.rtcpFb == GatheredFb(d.payloads)
            && m.candidates == CandidateTexts(c.transport.value.candidates)
            && (SourceOk(d.source) ==> (if d.source.Some? then m.ssrc == d.source.value.ssrc && m.cname == d.source.value.cname
                                        else m.ssrc == None && m.cname == None))
  {
    hide CandidateTexts, WithPayloads, WithCandidates, GatheredFmtp, GatheredFb, NormalEntry;
    var d := c.description.value;
    var m1 := WithPreamble(NewMedia(d.media.value), b, c.name.value);
    PayloadsGathered(m1, d.payloads);
    var m2 := WithSource(WithPayloads(m1, d.payloads), d.source);
    CandidatesGathered(m2, c.transport.value.candidates);
    assert [] + NormalEntries(d.payloads) == NormalEntries(d.payloads);
    assert [] + GatheredFmtp(d.payloads) == GatheredFmtp(d.payloads) && [] + GatheredFb(d.payloads) == GatheredFb(d.payloads);
    var texts := CandidateTexts(c.transport.value.candidates);
    assert [] + texts == texts;
  }

  lemma PayloadsSurvive(m: Media, ps: seq<Payload>)
    requires PayloadsOk(ps) && m.rtpmap == NormalEntries(ps) && m.fmtp == GatheredFmtp(ps) && m.rtcpFb == GatheredFb(ps)
    ensures PayloadsOf(m, m.rtpmap) == ps
  {
    hide PayloadOf, NormalEntry, GatheredFmtp, GatheredFb, PayloadOk;
    forall k | 0 <= k < |ps| ensures PayloadsOf(m, m.rtpmap)[k] == ps[k] {
      PayloadSurvives(m, ps, k);
    }
  }

  lemma ContentSurvives(lower: Lower, b: Bundle, c: Content)
    requires ContentOk(lower, b, c) && FingerprintOk(b.fingerprint)
    ensures ContentOf(lower, SectionMedia(b, c)) == c
  {
    hide SectionMedia, PayloadsOf, PayloadsOk, CandidateOk, CandidatesFrom, CandidateTexts, NormalEntries;
    hide GatheredFmtp, GatheredFb;
    hide Ends, Field;
    KindIsSomething(c.description.value.media.value);
    SectionOf(b, c);
    var m := SectionMedia(b, c);
    PayloadsSurvive(m, c.description.value.payloads);
    CandidatesSurvive(lower, c.transport.value.candidates);
    FingerprintIsSomething(b.fingerprint);
  }

  lemma KindIsSomething(kind: string)
    requires IsWord(kind)
    ensures kind != "" && IsKind(kind)
  {
  }

  lemma FingerprintIsSomething(fingerprint: Option<Fingerprint>)
    requires FingerprintOk(fingerprint)
    ensures FingerprintReadable(fingerprint) && (fingerprint.Some? ==> fingerprint.value.text != "")
  {
  }

  // ---- what is written can be read -----------------------------------------

  lemma PayloadIsReadableToo(p: Payload)
    requires PayloadOk(p)
    ensures Readable(p) && Tidy(PayloadLines(p))
  {
    hide ParameterTexts, FbText, IsParam, RtpmapText, ParameterOk, Join;
    ParametersSurvive(p.parameters);
    var ts := ParameterTexts(p.parameters);
    if ts != [] {
      ParamsEnd(ts);
    }
    forall i | 0 <= i < |p.feedback| ensures Ends(FbText(p.feedback[i])) && OnOneLine(FbText(p.feedback[i])) {
      FeedbackSurvives(p.feedback[i]);
    }
    RtpmapIsOnOneLine(p);
    forall i | 0 <= i < |ts| ensures '\n' !in ts[i] {
      ParamIsOnOneLine(ts[i]);
    }
    JoinedAvoids(ts, ";", '\n');
    PayloadLinesAreTidy(p);
  }

  lemma PayloadLinesAreTidy(p: Payload)
    requires OnOneLine(Or(p.id, "")) && OnOneLine(RtpmapText(p)) && OnOneLine(Join(ParameterTexts(p.parameters), ";"))
    requires forall i :: 0 <= i < |p.feedback| ==> OnOneLine(FbText(p.feedback[i]))
    ensures Tidy(PayloadLines(p))
  {
    hide ParameterTexts, Join, RtpmapValue;
    forall i | 0 <= i < |p.feedback| ensures OnOneLine(Show(FeedbackLines(Or(p.id, ""), p.feedback)[i])) {
      assert OnOneLine(FbText(p.feedback[i]));
    }
  }

  lemma {:induction false} PayloadsAreTidy(ps: seq<Payload>)
    requires forall i :: 0 <= i < |ps| ==> PayloadOk(ps[i])
    ensures Tidy(AllPayloadLines(ps))
  {
    hide Tidy, PayloadLines, PayloadOk;
    if ps == [] {
      NothingIsTidy();
    } else {
      PayloadsAreTidy(ps[..|ps| - 1]);
      PayloadIsReadableToo(ps[|ps| - 1]);
      TidyAppends(AllPayloadLines(ps[..|ps| - 1]), PayloadLines(ps[|ps| - 1]));
    }
  }

  lemma PayloadsAreReadable(ps: seq<Payload>)
    requires PayloadsOk(ps)
    ensures AllReadable(ps) && Tidy(AllPayloadLines(ps))
    ensures forall i :: 0 <= i < |ps| ==> OnOneLine(Or(ps[i].id, ""))
  {
    hide Readable, Tidy, AllPayloadLines, PayloadLines;
    forall i | 0 <= i < |ps| ensures Readable(ps[i]) && OnOneLine(Or(ps[i].id, "")) {
      PayloadIsReadableToo(ps[i]);
      assert PayloadOk(ps[i]);
    }
    PayloadsAreTidy(ps);
  }

  lemma SourceIsReadable(source: Option<Source>)
    requires SourceOk(source)
    ensures SourceReadable(source)
  {
  }

  lemma CandidatesAreWords(lower: Lower, cs: seq<Candidate>)
    requires forall i :: 0 <= i < |cs| ==> CandidateOk(lower, cs[i])
    ensures forall i :: 0 <= i < |cs| ==> HasWords(cs[i])
  {
    hide CandidateOk, HasWords, CandidateFrom, Join;
    forall i | 0 <= i < |cs| ensures HasWords(cs[i]) {
      CandidateSurvives(lower, cs[i]);
    }
  }

  lemma ContentIsReadableToo(lower: Lower, b: Bundle, c: Content)
    requires ContentOk(lower, b, c) && BundleReadable(b)
    ensures ContentReadable(c) && Tidy(SectionLines(b, c))
  {
    hide Tidy, Preamble, AllPayloadLines, SourceLines, CandidateLines, HasWords, BundleReadable, PayloadsOk;
    hide AllReadable, SourceOk;
    hide SourceReadable, CandidateOk, IsWord, Field;
    var d, cs := c.description.value, c.transport.value.candidates;
    var kind, mid := d.media.value, c.name.value;
    KindIsSomething(kind);
    WordIsOnOneLine(kind);
    PayloadsAreReadable(d.payloads);
    SourceIsReadable(d.source);
    CandidatesAreWords(lower, cs);
    TidyMedia(kind, d.payloads);
    TidyPreamble(b, mid);
    TidySource(d.source);
    TidyCandidates(cs);
    var l1 := [MediaOut(kind, Ids(d.payloads))];
    TidyAppends(l1, Preamble(b, mid));
    TidyAppends(l1 + Preamble(b, mid), AllPayloadLines(d.payloads));
    TidyAppends(l1 + Preamble(b, mid) + AllPayloadLines(d.payloads), SourceLines(d.source));
    TidyAppends(l1 + Preamble(b, mid) + AllPayloadLines(d.payloads) + SourceLines(d.source), CandidateLines(cs));
  }

  lemma {:induction false} SectionsAreTidy(lower: Lower, b: Bundle, cs: seq<Content>)
    requires BundleReadable(b) && forall i :: 0 <= i < |cs| ==> ContentOk(lower, b, cs[i])
    ensures Tidy(AllSectionLines(b, cs)) && AllContentsReadable(cs)
  {
    hide Tidy, SectionLines, ContentOk, ContentReadable, BundleReadable;
    if cs == [] {
      NothingIsTidy();
    } else {
      var front, c := cs[..|cs| - 1], cs[|cs| - 1];
      SectionsAreTidy(lower, b, front);
      ContentIsReadableToo(lower, b, c);
      TidyAppends(AllSectionLines(b, front), SectionLines(b, c));
      forall i | 0 <= i < |cs| ensures ContentReadable(cs[i]) {
        if i < |front| {
          assert ContentReadable(front[i]);
        }
      }
    }
  }

  lemma NamesAreOnOneLine(lower: Lower, b: Bundle, cs: seq<Content>)
    requires forall i :: 0 <= i < |cs| ==> ContentOk(lower, b, cs[i])
    ensures forall i :: 0 <= i < |Mids(cs)| ==> '\n' !in Mids(cs)[i]
  {
    hide PayloadsOk, SourceOk, CandidateOk, Ends;
    forall i | 0 <= i < |cs| ensures '\n' !in Mids(cs)[i] {
      assert ContentOk(lower, b, cs[i]);
    }
  }

  lemma BundleIsReadableToo(b: Bundle)
    requires Field(b.ufrag) && Field(b.pwd) && FingerprintOk(b.fingerprint)
    ensures BundleReadable(b)
  {
    FingerprintIsSomething(b.fingerprint);
  }

  lemma BothPartsAreThere(lower: Lower, cs: seq<Content>)
    requires ContentsOk(lower, cs)
    ensures forall i :: 0 <= i < |cs| ==> cs[i].description.Some? && cs[i].transport.Some?
  {
    hide PayloadsOk, SourceOk, CandidateOk, Field, FingerprintOk;
    forall i | 0 <= i < |cs| ensures cs[i].description.Some? && cs[i].transport.Some? {
      assert ContentOk(lower, BundleOf(cs), cs[i]);
    }
  }

  lemma SdpIsRead(lower: Lower, cs: seq<Content>)
    requires ContentsOk(lower, cs)
    ensures AllContentsReadable(cs)
    ensures forall i :: 0 <= i < |cs| ==> cs[i].description.Some? && cs[i].transport.Some?
    ensures AddAll([], Lines(TextOf(PrintLine, SdpLines(cs)))) == SectionMedias(BundleOf(cs), cs)
  {
    hide Tidy, AllSectionLines, Header, BundleReadable, BundleOf, ContentOk, AddAll, AddOut, TextOf, Lines, Mids;
    hide Field, FingerprintOk, ContentReadable;
    BothPartsAreThere(lower, cs);
    var b := BundleOf(cs);
    BundleIsReadableToo(b);
    SectionsAreTidy(lower, b, cs);
    NamesAreOnOneLine(lower, b, cs);
    TidyHeader(Mids(cs));
    TidyAppends(Header(Mids(cs)), AllSectionLines(b, cs));
    LinesOfText(SdpLines(cs));
    AddShown([], SdpLines(cs));
    ReadSdpLines(cs);
  }

  /** Main result: contents that have what an SDP needs, and nothing it has no room for, are read back
      from the SDP that is written for them exactly as they were. */
  lemma JingleSurvives(lower: Lower, cs: seq<Content>)
    requires cs != [] && ContentsOk(lower, cs)
    ensures Written(cs).Some? && SdpToContents(lower, Written(cs).value) == cs
  {
    hide ContentOk, AddAll, TextOf, Lines, SdpLines, SectionMedia, BundleOf, ContentOf, Field, FingerprintOk, ContentReadable;
    SdpIsRead(lower, cs);
    var b := BundleOf(cs);
    var ms := SectionMedias(b, cs);
    forall i | 0 <= i < |cs| ensures ContentsOf(lower, ms)[i] == cs[i] {
      ContentSurvives(lower, b, cs[i]);
    }
  }
}
