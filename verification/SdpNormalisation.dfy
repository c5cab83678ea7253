/** The main results about translating an SDP to Jingle and back. */
module SdpNormalisation {
  import opened Wrappers
  import opened Text
  import opened Words
  import opened Sdp
  import opened SdpParsed
  import opened SdpReadBack
  import opened SdpNormal
  import opened SdpContents
  import opened SdpPayloads
  import opened SdpReread
  import opened SdpSections
  import opened SdpStable
  import opened SdpOutline

  lemma SameTextSameOutline(lower: Lower, ms: seq<Media>, ms': seq<Media>)
    requires LowerLaw(lower) && AllWellFormed(ms) && AllWellFormed(ms')
    requires TextOf(PrintLine, SdpLines(ContentsOf(lower, ms))) == TextOf(PrintLine, SdpLines(ContentsOf(lower, ms')))
    ensures SectionOutlines(ContentsOf(lower, ms)) == SectionOutlines(ContentsOf(lower, ms'))
  {
    hide TextOf, SdpLines, Shown, OutlineOf, SectionOutline, Tidy, LowerLaw, AllWellFormed;
    TidySdp(lower, ms);
    TidySdp(lower, ms');
    LinesOfText(SdpLines(ContentsOf(lower, ms)));
    LinesOfText(SdpLines(ContentsOf(lower, ms')));
    OutlineOfSdp(ContentsOf(lower, ms));
    OutlineOfSdp(ContentsOf(lower, ms'));
  }

  /** A section without a kind gets another media line in the second round. */
  lemma NoKindChanges(ids: seq<string>)
    ensures Show(MediaOut("", ids)) + "\r" != Show(MediaOut("9", ids)) + "\r"
  {
    hide Join;
    assert (Show(MediaOut("", ids)) + "\r")[2] == ' ';
    assert (Show(MediaOut("9", ids)) + "\r")[2] == '9';
  }

  lemma RtpmapLineTells(p: Payload, q: Payload)
    requires Show(RtpmapLine(p)) == Show(RtpmapLine(q)) && Or(p.id, "") == Or(q.id, "")
    ensures |RtpmapText(p)| == |RtpmapText(q)|
  {
    hide RtpmapValue;
    var id := Or(p.id, "");
    assert |Show(RtpmapLine(p))| == |"a=" + "rtpmap" + ":"| + |id| + 1 + |RtpmapText(p)|;
    assert |Show(RtpmapLine(q))| == |"a=" + "rtpmap" + ":"| + |id| + 1 + |RtpmapText(q)|;
  }

  lemma NothingTrimmed(m: Media, e: Entry)
    requires IsEntry(e) && |TrimEnd(RtpmapText(PayloadOf(m, e)))| == |RtpmapText(PayloadOf(m, e))|
    ensures ChannelsOk(e.1)
  {
    hide Split, ParametersIn, AllFeedback, AllFor, FirstFor, TrimEnd, ChannelsOk, Ends, IsEntry;
    var p := PayloadOf(m, e);
    ClockrateEnds(m, e);
    TrimmedValue(Or(p.name, ""), Or(p.clockrate, "90000"), p.channels);
    ChannelsStableIff(m, e);
    if p.channels.Some? {
      TrimmedLength(p.channels.value);
    }
  }

  lemma TrimmedLength(s: string)
    ensures |TrimEnd(s)| == |s| ==> TrimEnd(s) == s
  {
  }

  /** An entry that comes out the same in the outline meets the condition. */
  lemma UnchangedEntryIsStable(m: Media, m': Media, i: nat)
    requires WellFormed(m) && i < |m.rtpmap| && GatheredFrom(m', m)
    requires m'.rtpmap == NormalEntries(PayloadsOf(m, m.rtpmap))
    requires PayloadOutlines(PayloadsOf(m', m'.rtpmap)) == PayloadOutlines(PayloadsOf(m, m.rtpmap))
    ensures EntryIsStable(m, m.rtpmap[i])
  {
    hide GatheredFrom, Show, RtpmapText, TrimEnd, ChannelsOk, AllFor, ParametersIn, Split, FirstFor, PayloadLines;
    var e := m.rtpmap[i];
    assert IsEntry(e);
    var p, q := PayloadOf(m, e), PayloadOf(m', NormalEntry(PayloadOf(m, e)));
    CountOfMember(m.rtpmap, i);
    RereadPayload(m, m', e);
    assert PayloadOutlines(PayloadsOf(m', m'.rtpmap))[i] == PayloadOutline(q);
    assert PayloadOutlines(PayloadsOf(m, m.rtpmap))[i] == PayloadOutline(p);
    CutEnd(Show(RtpmapLine(p)), Show(RtpmapLine(q)));
    RtpmapLineTells(p, q);
    NothingTrimmed(m, e);
    OnceOrNever(Count(m.rtpmap, e.0), |p.feedback|);
  }

  lemma CutEnd(a: string, b: string)
    requires a + "\r" == b + "\r"
    ensures a == b
  {
    assert a == (a + "\r")[..|a|] && b == (b + "\r")[..|b|];
  }

  lemma AtLeastTwice(n: nat, k: nat)
    requires n >= 2
    ensures n * k >= 2 * k
  {
  }

  lemma OnceOrNever(n: nat, k: nat)
    requires n >= 1 && n * k == k
    ensures n == 1 || k == 0
  {
    if n >= 2 {
      AtLeastTwice(n, k);
    }
  }

  lemma UnchangedSectionIsStable(lower: Lower, b: Bundle, m: Media)
    requires WellFormed(m)
    requires SectionOutline(ContentOf(lower, SectionMedia(b, ContentOf(lower, m)))) == SectionOutline(ContentOf(lower, m))
    ensures Stable(m)
  {
    hide SectionMedia, PayloadsOf, PayloadOutlines, CandidatesFrom, CandidateTexts, GatheredFrom, NormalEntries, Carries;
    hide EntryIsStable, WellFormed, Show, Ids;
    var m' := SectionMedia(b, ContentOf(lower, m));
    SectionFields(lower, b, m);
    PayloadIds(m, m');
    if m.kind == "" {
      NoKindChanges(Ids(PayloadsOf(m, m.rtpmap)));
    }
    forall i | 0 <= i < |m.rtpmap| ensures EntryIsStable(m, m.rtpmap[i]) {
      UnchangedEntryIsStable(m, m', i);
    }
  }

  lemma UnchangedIsStable(lower: Lower, ms: seq<Media>)
    requires LowerLaw(lower) && AllWellFormed(ms) && ms != []
    requires TextOf(PrintLine, SdpLines(ContentsOf(lower, NormalForm(lower, ms))))
               == TextOf(PrintLine, SdpLines(ContentsOf(lower, ms)))
    ensures forall i :: 0 <= i < |ms| ==> Stable(ms[i])
  {
    hide TextOf, SdpLines, SectionOutline, LowerLaw, Stable, PayloadsOf, CandidatesFrom, SectionMedia, BundleOf, WellFormed;
    var cs, ms' := ContentsOf(lower, ms), NormalForm(lower, ms);
    WrittenIsParsed(lower, ms);
    SameTextSameOutline(lower, ms', ms);
    forall i | 0 <= i < |ms| ensures Stable(ms[i]) {
      assert WellFormed(ms[i]);
      assert SectionOutlines(ContentsOf(lower, ms'))[i] == SectionOutline(ContentOf(lower, ms'[i]));
      assert SectionOutlines(cs)[i] == SectionOutline(ContentOf(lower, ms[i]));
      UnchangedSectionIsStable(lower, BundleOf(cs), ms[i]);
    }
  }

  /** Main result, for every SDP with a media line: translating it to Jingle and back a second time
      changes nothing exactly when every section has a kind, no kept third part of an rtpmap value
      ends in white space with a fourth after it, and no payload id with feedback is listed twice. */
  lemma TwiceIsOnceIff(lower: Lower, sdp: string)
    requires LowerLaw(lower) && AddAll([], Lines(sdp)) != []
    ensures var once := Translated(lower, sdp);
            && once.Some?
            && (Translated(lower, once.value) == once <==>
                  forall i :: 0 <= i < |AddAll([], Lines(sdp))| ==> Stable(AddAll([], Lines(sdp))[i]))
  {
    hide TextOf, SdpLines, AddAll, Lines, LowerLaw, Stable, ContentsOf, NormalForm, AllWellFormed;
    var ms := AddAll([], Lines(sdp));
    ContentsCount(lower, ms);
    var text := TextOf(PrintLine, SdpLines(ContentsOf(lower, ms)));
    ParsedIsWellFormed(sdp);
    WrittenIsParsed(lower, ms);
    NormalCount(lower, ms);
    ContentsCount(lower, NormalForm(lower, ms));
    assert Translated(lower, text) == Some(TextOf(PrintLine, SdpLines(ContentsOf(lower, NormalForm(lower, ms)))));
    if Translated(lower, text) == Some(text) {
      UnchangedIsStable(lower, ms);
    }
    if forall i :: 0 <= i < |ms| ==> Stable(ms[i]) {
      StableIsStable(lower, ms);
    }
  }

  /** The condition can fail: a media line that names no kind comes back with its port for one. */
  lemma NoKindIsNotStable(lower: Lower)
    requires LowerLaw(lower)
    ensures var once := Translated(lower, "m=");
            once.Some? && Translated(lower, once.value) != once
  {
    hide ReadLine, Stable, Translated, LowerLaw;
    var sdp := "m=";
    SplitNone(sdp, '\n');
    assert Lines(sdp) == [sdp] && [sdp][..0] == [];
    ReadNoKind();
    assert AddAll([], [sdp]) == [NewMedia("")];
    NoKindFails(NewMedia(""));
    assert !Stable(AddAll([], Lines(sdp))[0]);
    TwiceIsOnceIff(lower, sdp);
  }

  lemma ReadNoKind()
    ensures ReadLine("m=") == MediaLine("")
  {
    assert TrimEnd("m=") == "m=" && "m="[2..] == "";
    assert WordsOf("") == [];
  }

  lemma NoKindFails(m: Media)
    requires m.kind == ""
    ensures !Stable(m)
  {
  }

  lemma ContentsCount(lower: Lower, ms: seq<Media>)
    ensures |ContentsOf(lower, ms)| == |ms|
  {
  }

  lemma NormalCount(lower: Lower, ms: seq<Media>)
    ensures |NormalForm(lower, ms)| == |ms|
  {
  }

  predicate HasMediaLine(lines: seq<string>) {
    exists i :: 0 <= i < |lines| && "m=" <= lines[i]
  }

  lemma {:induction false} TrimKeepsStart(line: string)
    requires "m=" <= line
    ensures "m=" <= TrimEnd(line)
  {
    if |line| > 2 && IsWhitespace(line[|line| - 1]) {
      TrimKeepsStart(line[..|line| - 1]);
    } else {
      assert !IsWhitespace('=');
    }
  }

  lemma MediaLineIff(line: string)
    ensures ReadLine(line).MediaLine? <==> "m=" <= line
  {
    hide WordsOf;
    if "m=" <= line {
      TrimKeepsStart(line);
    } else {
      assert TrimEnd(line) <= line;
    }
  }

  lemma {:induction false} SectionsIffMediaLine(lines: seq<string>)
    ensures AddAll([], lines) != [] <==> HasMediaLine(lines)
  {
    hide ReadLine, Update;
    if lines != [] {
      var k := |lines| - 1;
      SectionsIffMediaLine(lines[..k]);
      MediaLineIff(lines[k]);
      if i :| 0 <= i < k && "m=" <= lines[i] {
        assert "m=" <= lines[..k][i];
      }
    }
  }

  /** An SDP translates to nothing exactly when no line of it begins with `m=`. */
  lemma NoMediaNoSdp(lower: Lower, sdp: string)
    ensures Translated(lower, sdp) == None <==> !HasMediaLine(Lines(sdp))
  {
    hide AddAll, Lines, ContentOf, HasMediaLine;
    SectionsIffMediaLine(Lines(sdp));
  }

  /** The first section with a user fragment, if there is one. */
  function FirstWithUfrag(ms: seq<Media>): Option<Media> {
    if ms == [] then None else if ms[0].ufrag != "" then Some(ms[0]) else FirstWithUfrag(ms[1..])
  }

  /** Main result: every section of a translated SDP carries the credentials of the first section of
      the original that has a user fragment, and none if no section has one. */
  lemma EverySectionCarriesThem(lower: Lower, sdp: string)
    requires LowerLaw(lower) && AddAll([], Lines(sdp)) != []
    ensures var ms := AddAll([], Lines(sdp));
            var out := AddAll([], Lines(Translated(lower, sdp).value));
            && |out| == |ms|
            && forall i :: 0 <= i < |out| ==>
                 match FirstWithUfrag(ms)
                 case Some(m) =>
                   out[i].ufrag == m.ufrag && out[i].pwd == m.pwd && out[i].fingerprint == m.fingerprint
                   && (m.fingerprint != "" ==> out[i].fingerprintHash == m.fingerprintHash
                                               && out[i].setup == if m.setup == "" then "active" else m.setup)
                 case None => out[i].ufrag == "" && out[i].pwd == "" && out[i].fingerprint == ""
  {
    hide TextOf, SdpLines, AddAll, Lines, LowerLaw, ContentsOf, AllWellFormed, SectionMedia, BundleOf;
    var ms := AddAll([], Lines(sdp));
    ContentsCount(lower, ms);
    ParsedIsWellFormed(sdp);
    WrittenIsParsed(lower, ms);
    BundleIsFirst(lower, ms);
    var out := NormalForm(lower, ms);
    forall i | 0 <= i < |out| ensures Carries(out[i], BundleOf(ContentsOf(lower, ms))) {
      SectionFields(lower, BundleOf(ContentsOf(lower, ms)), ms[i]);
    }
  }

  lemma {:induction false} BundleIsFirst(lower: Lower, ms: seq<Media>)
    ensures BundleOf(ContentsOf(lower, ms)) ==
              match FirstWithUfrag(ms)
              case Some(m) =>
                Bundle(m.ufrag, m.pwd,
                       if m.fingerprint == "" then None
                       else Some(Fingerprint(Some(m.fingerprintHash), NonEmpty(m.setup), m.fingerprint)))
              case None => Bundle("", "", None)
  {
    hide PayloadsOf, CandidatesFrom;
    if ms != [] {
      assert ContentsOf(lower, ms)[1..] == ContentsOf(lower, ms[1..]);
      BundleIsFirst(lower, ms[1..]);
    }
  }
}
