/** Translating an SDP to Jingle and back is a normalisation: when doing it twice is doing it once. */
module SdpStable {
  import opened Wrappers
  import opened Text
  import opened Sdp
  import opened SdpParsed
  import opened SdpNormal
  import opened SdpContents
  import opened SdpPayloads
  import opened SdpReread
  import opened SdpSections

  /** `contents_to_sdp` of `sdp_to_contents`. */
  function Translated(lower: Lower, sdp: string): Option<string> {
    Written(SdpToContents(lower, sdp))
  }

  /** The condition on a media section: it has a kind, no kept part of an rtpmap value loses its end,
      and no payload id that has feedback is listed twice. */
  predicate Stable(m: Media) {
    m.kind != "" && forall i :: 0 <= i < |m.rtpmap| ==> EntryIsStable(m, m.rtpmap[i])
  }

  // ---- the fields of a section in normal form ----------------------------

  function CandidateTexts(cs: seq<Candidate>): seq<string> {
    if cs == [] then []
    else
      CandidateTexts(cs[..|cs| - 1])
      + (match CandidateWords(cs[|cs| - 1]) case Some(words) => [Join(words, " ")] case None => [])
  }

  lemma {:induction false} CandidatesGathered(m: Media, cs: seq<Candidate>)
    ensures WithCandidates(m, cs) == m.(candidates := m.candidates + CandidateTexts(cs))
  {
    hide CandidateWords, Join;
    if cs == [] {
      assert m.candidates + [] == m.candidates;
    } else {
      var front, c := cs[..|cs| - 1], cs[|cs| - 1];
      CandidatesGathered(m, front);
      if CandidateWords(c).Some? {
        Associate(m.candidates, CandidateTexts(front), [Join(CandidateWords(c).value, " ")]);
      } else {
        assert CandidateTexts(front) + [] == CandidateTexts(front);
      }
    }
  }

  /** What the credentials look like in a section. */
  predicate Carries(m: Media, b: Bundle) {
    && m.ufrag == b.ufrag && m.pwd == b.pwd
    && (match b.fingerprint
        case Some(fp) =>
          m.fingerprint == fp.text && m.fingerprintHash == Or(fp.hash, "sha-256") && m.setup == Or(fp.setup, "active")
        case None => m.fingerprint == "" && m.setup == "")
  }

  lemma SectionFields(lower: Lower, b: Bundle, m: Media)
    ensures var m' := SectionMedia(b, ContentOf(lower, m));
            && m'.kind == (if m.kind == "" then "9" else m.kind)
            && m'.mid == NameOf(m) && Carries(m', b)
            && m'.rtpmap == NormalEntries(PayloadsOf(m, m.rtpmap)) && GatheredFrom(m', m)
            && m'.ssrc == (if m.cname.Some? then m.ssrc else None)
            && m'.cname == (if m.ssrc.Some? then m.cname else None)
            && m'.candidates == CandidateTexts(CandidatesFrom(lower, m.candidates))
  {
    hide PayloadOf, CandidateTexts, CandidatesFrom, WithPayloads, WithCandidates, GatheredFmtp, GatheredFb, NormalEntry;
    var ps := PayloadsOf(m, m.rtpmap);
    var m1 := WithPreamble(NewMedia(if m.kind == "" then "9" else m.kind), b, NameOf(m));
    PayloadsGathered(m1, ps);
    var m2 := WithSource(WithPayloads(m1, ps), ContentOf(lower, m).description.value.source);
    CandidatesGathered(m2, CandidatesFrom(lower, m.candidates));
    assert [] + NormalEntries(ps) == NormalEntries(ps);
    assert [] + GatheredFmtp(ps) == GatheredFmtp(ps) && [] + GatheredFb(ps) == GatheredFb(ps);
    var texts := CandidateTexts(CandidatesFrom(lower, m.candidates));
    assert [] + texts == texts;
  }

  // ---- a section written a second time -----------------------------------

  lemma {:induction false} CandidateLinesReread(lower: Lower, values: seq<string>)
    requires LowerLaw(lower)
    ensures CandidateLines(CandidatesFrom(lower, CandidateTexts(CandidatesFrom(lower, values))))
              == CandidateLines(CandidatesFrom(lower, values))
  {
    hide CandidateFrom, CandidateWords, Join, LowerLaw;
    if values != [] {
      var rest := CandidatesFrom(lower, values[1..]);
      CandidateLinesReread(lower, values[1..]);
      match CandidateFrom(lower, values[0])
      case Some(c) =>
        CandidateReread(lower, values[0]);
        var text := Join(CandidateWords(c).value, " ");
        TextsOfCons(c, rest);
        var c' := CandidateFrom(lower, text).value;
        var texts := CandidateTexts(rest);
        assert ([text] + texts)[1..] == texts;
        assert CandidatesFrom(lower, [text] + texts) == [c'] + CandidatesFrom(lower, texts);
        LinesOfCons(c, rest);
        LinesOfCons(c', CandidatesFrom(lower, texts));
      case None =>
        assert [] + rest == rest;
    }
  }

  lemma {:induction false} TextsOfCons(c: Candidate, cs: seq<Candidate>)
    requires CandidateWords(c).Some?
    ensures CandidateTexts([c] + cs) == [Join(CandidateWords(c).value, " ")] + CandidateTexts(cs)
  {
    hide CandidateWords, Join;
    var all := [c] + cs;
    if cs == [] {
      assert all == [c] && all[..0] == [];
    } else {
      assert all[..|all| - 1] == [c] + cs[..|cs| - 1];
      TextsOfCons(c, cs[..|cs| - 1]);
    }
  }

  lemma {:induction false} LinesOfCons(c: Candidate, cs: seq<Candidate>)
    ensures CandidateLines([c] + cs) == OneCandidate(c) + CandidateLines(cs)
  {
    hide OneCandidate;
    var all := [c] + cs;
    if cs == [] {
      assert all == [c] && all[..0] == [];
      assert CandidateLines(all) == [] + OneCandidate(c);
    } else {
      assert all[..|all| - 1] == [c] + cs[..|cs| - 1];
      LinesOfCons(c, cs[..|cs| - 1]);
      Associate(OneCandidate(c), CandidateLines(cs[..|cs| - 1]), OneCandidate(cs[|cs| - 1]));
    }
  }

  lemma {:induction false} SamePayloadLines(ps: seq<Payload>, qs: seq<Payload>)
    requires |ps| == |qs| && forall i :: 0 <= i < |ps| ==> PayloadLines(qs[i]) == PayloadLines(ps[i])
    ensures AllPayloadLines(qs) == AllPayloadLines(ps)
  {
    hide PayloadLines;
    if ps != [] {
      SamePayloadLines(ps[..|ps| - 1], qs[..|qs| - 1]);
    }
  }

  lemma {:induction false} SameIds(ps: seq<Payload>, qs: seq<Payload>)
    requires |ps| == |qs| && forall i :: 0 <= i < |ps| ==> qs[i].id == ps[i].id
    ensures Ids(qs) == Ids(ps)
  {
    if ps != [] {
      SameIds(ps[..|ps| - 1], qs[..|qs| - 1]);
    }
  }

  lemma PayloadIds(m: Media, m': Media)
    requires m'.rtpmap == NormalEntries(PayloadsOf(m, m.rtpmap))
    ensures Ids(PayloadsOf(m', m'.rtpmap)) == Ids(PayloadsOf(m, m.rtpmap))
  {
    hide ParametersIn, AllFeedback, Split, AllFor, FirstFor, RtpmapText;
    SameIds(PayloadsOf(m, m.rtpmap), PayloadsOf(m', m'.rtpmap));
  }

  lemma PayloadLinesStable(m: Media, m': Media)
    requires WellFormed(m) && GatheredFrom(m', m) && m'.rtpmap == NormalEntries(PayloadsOf(m, m.rtpmap))
    requires forall i :: 0 <= i < |m.rtpmap| ==> EntryIsStable(m, m.rtpmap[i])
    ensures AllPayloadLines(PayloadsOf(m', m'.rtpmap)) == AllPayloadLines(PayloadsOf(m, m.rtpmap))
  {
    hide EntryIsStable, GatheredFrom, PayloadLines, PayloadOf, NormalEntry, IsEntry, Count;
    var ps, qs := PayloadsOf(m, m.rtpmap), PayloadsOf(m', m'.rtpmap);
    forall i | 0 <= i < |ps| ensures PayloadLines(qs[i]) == PayloadLines(ps[i]) {
      CountOfMember(m.rtpmap, i);
      RereadPayload(m, m', m.rtpmap[i]);
    }
    SamePayloadLines(ps, qs);
  }

  /** The same credentials, as far as they are written. */
  predicate SameCredentials(a: Bundle, b: Bundle) {
    a.ufrag == b.ufrag && a.pwd == b.pwd && FingerprintLines(a.fingerprint) == FingerprintLines(b.fingerprint)
  }

  lemma SourceReread(m: Media, m': Media)
    requires m'.ssrc == (if m.cname.Some? then m.ssrc else None) && m'.cname == (if m.ssrc.Some? then m.cname else None)
    ensures SourceLines(if m'.ssrc.Some? && m'.cname.Some? then Some(Source(m'.ssrc, m'.cname)) else None)
              == SourceLines(if m.ssrc.Some? && m.cname.Some? then Some(Source(m.ssrc, m.cname)) else None)
  {
  }

  lemma SectionReread(lower: Lower, b: Bundle, b': Bundle, m: Media)
    requires LowerLaw(lower) && WellFormed(m) && Stable(m) && SameCredentials(b', b)
    ensures var m' := SectionMedia(b, ContentOf(lower, m));
            SectionLines(b', ContentOf(lower, m')) == SectionLines(b, ContentOf(lower, m)) && NameOf(m') == NameOf(m)
  {
    hide SectionMedia, CandidatesFrom, CandidateTexts, CandidateLines, AllPayloadLines, PayloadsOf, SourceLines, Ids;
    hide GatheredFrom, LowerLaw, EntryIsStable, NormalEntries, WellFormed, FingerprintLines, Carries;
    var m' := SectionMedia(b, ContentOf(lower, m));
    SectionFields(lower, b, m);
    PayloadIds(m, m');
    PayloadLinesStable(m, m');
    SourceReread(m, m');
    CandidateLinesReread(lower, m.candidates);
  }

  // ---- the shared credentials --------------------------------------------

  lemma {:induction false} BundleFingerprint(lower: Lower, ms: seq<Media>)
    ensures match BundleOf(ContentsOf(lower, ms)).fingerprint
            case Some(fp) => fp.text != "" && fp.hash.Some? && fp.setup != Some("")
            case None => true
    ensures BundleOf(ContentsOf(lower, ms)).ufrag == "" ==> BundleOf(ContentsOf(lower, ms)) == Bundle("", "", None)
  {
    hide PayloadsOf, CandidatesFrom;
    if ms != [] {
      assert ContentsOf(lower, ms)[1..] == ContentsOf(lower, ms[1..]);
      BundleFingerprint(lower, ms[1..]);
    }
  }

  lemma {:induction false} NoUfragNoBundle(lower: Lower, ms: seq<Media>)
    requires forall i :: 0 <= i < |ms| ==> ms[i].ufrag == ""
    ensures BundleOf(ContentsOf(lower, ms)) == Bundle("", "", None)
  {
    hide PayloadsOf, CandidatesFrom;
    if ms != [] {
      assert ms[0].ufrag == "";
      assert ContentsOf(lower, ms)[1..] == ContentsOf(lower, ms[1..]);
      NoUfragNoBundle(lower, ms[1..]);
    }
  }

  lemma FirstBundle(lower: Lower, ms: seq<Media>)
    requires ms != [] && ms[0].ufrag != ""
    ensures BundleOf(ContentsOf(lower, ms)) ==
              Bundle(ms[0].ufrag, ms[0].pwd,
                     if ms[0].fingerprint == "" then None
                     else Some(Fingerprint(Some(ms[0].fingerprintHash), NonEmpty(ms[0].setup), ms[0].fingerprint)))
  {
    hide PayloadsOf, CandidatesFrom;
  }

  /** After one round every section carries the credentials, so the next round finds the same ones. */
  lemma BundleReread(lower: Lower, ms: seq<Media>)
    requires ms != []
    ensures SameCredentials(BundleOf(ContentsOf(lower, NormalForm(lower, ms))), BundleOf(ContentsOf(lower, ms)))
  {
    hide BundleOf, ContentsOf, SectionMedia;
    var b := BundleOf(ContentsOf(lower, ms));
    var ms' := NormalForm(lower, ms);
    BundleFingerprint(lower, ms);
    forall i | 0 <= i < |ms| ensures Carries(ms'[i], b) {
      SectionFields(lower, b, ms[i]);
    }
    assert Carries(ms'[0], b);
    if b.ufrag == "" {
      NoUfragNoBundle(lower, ms');
    } else {
      FirstBundle(lower, ms');
      assert |"active"| == 6;
    }
  }

  // ---- doing it twice ----------------------------------------------------

  lemma {:induction false} SectionsReread(lower: Lower, b: Bundle, b': Bundle, ms: seq<Media>, ms': seq<Media>)
    requires LowerLaw(lower) && AllWellFormed(ms) && SameCredentials(b', b)
    requires |ms'| == |ms| && forall i :: 0 <= i < |ms| ==> Stable(ms[i]) && ms'[i] == SectionMedia(b, ContentOf(lower, ms[i]))
    ensures AllSectionLines(b', ContentsOf(lower, ms')) == AllSectionLines(b, ContentsOf(lower, ms))
  {
    hide SectionLines, ContentOf, SectionMedia, Stable, WellFormed, SameCredentials, LowerLaw;
    if ms != [] {
      var k := |ms| - 1;
      SectionsReread(lower, b, b', ms[..k], ms'[..k]);
      assert ContentsOf(lower, ms)[..k] == ContentsOf(lower, ms[..k]);
      assert ContentsOf(lower, ms')[..k] == ContentsOf(lower, ms'[..k]);
      assert WellFormed(ms[k]) && Stable(ms[k]);
      SectionReread(lower, b, b', ms[k]);
    }
  }

  lemma StableIsStable(lower: Lower, ms: seq<Media>)
    requires LowerLaw(lower) && AllWellFormed(ms) && ms != []
    requires forall i :: 0 <= i < |ms| ==> Stable(ms[i])
    ensures SdpLines(ContentsOf(lower, NormalForm(lower, ms))) == SdpLines(ContentsOf(lower, ms))
  {
    hide AllSectionLines, Header, BundleOf, SectionMedia, SameCredentials, LowerLaw, PayloadsOf, CandidatesFrom;
    var cs, ms' := ContentsOf(lower, ms), NormalForm(lower, ms);
    var cs' := ContentsOf(lower, ms');
    BundleReread(lower, ms);
    SectionsReread(lower, BundleOf(cs), BundleOf(cs'), ms, ms');
    forall i | 0 <= i < |ms| ensures NameOf(ms'[i]) == NameOf(ms[i]) {
      SectionReread(lower, BundleOf(cs), BundleOf(cs'), ms[i]);
    }
    assert Mids(cs') == Mids(cs);
  }
}
