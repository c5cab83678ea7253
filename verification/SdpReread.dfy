/** One payload and one candidate, written and parsed again: what changes, and when nothing does. */
module SdpReread {
  import opened Wrappers
  import opened Text
  import opened Words
  import opened Sdp
  import opened SdpParsed
  import opened SdpNormal
  import opened SdpContents
  import opened SdpPayloads

  // ---- payloads ----------------------------------------------------------

  lemma ClockrateEnds(m: Media, e: Entry)
    requires IsEntry(e)
    ensures var p := PayloadOf(m, e); p.channels.None? ==> Ends(Or(p.clockrate, "90000"))
  {
    hide Split, ParametersIn, AllFeedback, AllFor, FirstFor;
    LastPartEnds(e.1);
  }

  lemma RereadRtpmap(m: Media, e: Entry, m': Media)
    requires IsEntry(e)
    ensures var p := PayloadOf(m, e);
            var q := PayloadOf(m', NormalEntry(p));
            && Or(q.name, "") == Or(p.name, "") && Or(q.clockrate, "90000") == Or(p.clockrate, "90000")
            && q.channels == TrimmedChannels(p.channels)
  {
    hide Split, ParametersIn, AllFeedback, AllFor, FirstFor, RtpmapValue, TrimEnd, Ends;
    var p := PayloadOf(m, e);
    var name, clockrate := Or(p.name, ""), Or(p.clockrate, "90000");
    PayloadParts(m, e);
    ClockrateEnds(m, e);
    TrimmedValue(name, clockrate, p.channels);
    if p.channels.Some? {
      TrimEndKeepsNoSlash(p.channels.value);
    }
    SplitThree(name, clockrate, TrimmedChannels(p.channels));
    assert NormalEntry(p).1 == RtpmapValue(name, clockrate, TrimmedChannels(p.channels));
    ClockrateIsSomething(m, e);
  }

  lemma ClockrateIsSomething(m: Media, e: Entry)
    ensures Or(PayloadOf(m, e).clockrate, "90000") != ""
  {
    hide Split, ParametersIn, AllFeedback, AllFor, FirstFor;
    assert |"90000"| == 5;
  }

  lemma ChannelsStableIff(m: Media, e: Entry)
    requires IsEntry(e)
    ensures TrimmedChannels(PayloadOf(m, e).channels) == PayloadOf(m, e).channels <==> ChannelsOk(e.1)
  {
    hide Split, ParametersIn, AllFeedback, AllFor, FirstFor;
    LastPartEnds(e.1);
    var ch := PayloadOf(m, e).channels;
    if ch.Some? {
      TrimmedIffEnds(ch.value);
    }
  }

  lemma TrimmedIffEnds(s: string)
    ensures TrimEnd(s) == s <==> s == "" || Ends(s)
  {
  }

  /** Where the format and feedback entries of a section come from. */
  ghost predicate GatheredFrom(m': Media, m: Media) {
    && m'.fmtp == GatheredFmtp(PayloadsOf(m, m.rtpmap))
    && m'.rtcpFb == GatheredFb(PayloadsOf(m, m.rtpmap))
  }

  lemma RereadParams(m: Media, m': Media, id: string)
    requires WellFormed(m) && GatheredFrom(m', m) && Count(m.rtpmap, id) > 0
    ensures ParamsFor(m', id) == ParamsFor(m, id)
  {
    hide ParametersIn, GatheredFmtp, GatheredFb, PayloadsOf, Split, WellFormed, IsParam;
    FmtpFoundAgain(m, m.rtpmap, id);
    ParamsForAreParams(m, id);
    var ts := ParamsFor(m, id);
    if ts != [] {
      assert ParamsFor(m', id) == ParameterTexts(ParametersIn(Split(Join(ts, ";"), ';')));
      forall i | 0 <= i < |ts| ensures ';' !in ts[i] {
        ParamHasNoSemicolon(ts[i]);
      }
      SplitUndoesJoin(ts, ';');
      assert [';'] == ";";
      ParamsAreStable(ts);
    }
  }

  lemma ParamHasNoSemicolon(t: string)
    requires IsParam(t)
    ensures ';' !in t
  {
  }

  lemma FbTextsAreStable(m: Media, id: string)
    requires AllEntries(m.rtcpFb)
    ensures AllFeedback(FbTexts(m, id)) == AllFeedback(AllFor(m.rtcpFb, id))
  {
    hide FeedbackOf, FbText, AllFor, IsValue;
    var values := AllFor(m.rtcpFb, id);
    AllForAreValues(m.rtcpFb, id);
    AllFeedbackAt(values);
    AllFeedbackAt(FbTexts(m, id));
    forall i | 0 <= i < |values| ensures AllFeedback(FbTexts(m, id))[i] == AllFeedback(values)[i] {
      ValueEnds(values[i]);
      FeedbackIsStable(values[i]);
    }
  }

  lemma RereadFeedback(m: Media, m': Media, id: string)
    requires WellFormed(m) && GatheredFrom(m', m)
    ensures |AllFor(m'.rtcpFb, id)| == Count(m.rtpmap, id) * |AllFor(m.rtcpFb, id)|
    ensures Count(m.rtpmap, id) == 1 || AllFor(m.rtcpFb, id) == [] ==>
              AllFeedback(AllFor(m'.rtcpFb, id)) == AllFeedback(AllFor(m.rtcpFb, id))
  {
    hide GatheredFmtp, GatheredFb, PayloadsOf, AllFor, FbText;
    FbFoundAgain(m, m.rtpmap, id);
    TimesLength(Count(m.rtpmap, id), FbTexts(m, id));
    FbTextsAreStable(m, id);
    if Count(m.rtpmap, id) == 1 {
      OneTime(FbTexts(m, id));
    } else if AllFor(m.rtcpFb, id) == [] {
      assert |AllFor(m'.rtcpFb, id)| == 0;
    }
  }

  lemma OneTime<T>(values: seq<T>)
    ensures Times(1, values) == values
  {
    assert Times(0, values) == [];
    assert [] + values == values;
  }

  /** The condition on one rtpmap entry: nothing is cut off at the end of its line, and its feedback is
      not written more than once. */
  predicate EntryIsStable(m: Media, e: Entry) {
    ChannelsOk(e.1) && (Count(m.rtpmap, e.0) == 1 || AllFor(m.rtcpFb, e.0) == [])
  }

  lemma RereadPayload(m: Media, m': Media, e: Entry)
    requires WellFormed(m) && IsEntry(e) && GatheredFrom(m', m) && Count(m.rtpmap, e.0) > 0
    ensures var p := PayloadOf(m, e);
            var q := PayloadOf(m', NormalEntry(p));
            && |q.feedback| == Count(m.rtpmap, e.0) * |p.feedback|
            && RtpmapText(q) == TrimEnd(RtpmapText(p))
            && (EntryIsStable(m, e) ==> PayloadLines(q) == PayloadLines(p))
  {
    hide Split, ParametersIn, ParameterTexts, AllFeedback, AllFor, FirstFor, TrimEnd, GatheredFrom, RtpmapValue;
    hide ChannelsOk, WellFormed, IsEntry, Count;
    var p := PayloadOf(m, e);
    var q := PayloadOf(m', NormalEntry(p));
    RereadRtpmap(m, e, m');
    ClockrateEnds(m, e);
    TrimmedValue(Or(p.name, ""), Or(p.clockrate, "90000"), p.channels);
    RereadParams(m, m', e.0);
    assert ParameterTexts(p.parameters) == ParamsFor(m, e.0);
    assert ParameterTexts(q.parameters) == ParamsFor(m', e.0);
    RereadFeedback(m, m', e.0);
    ChannelsStableIff(m, e);
  }

  // ---- candidates --------------------------------------------------------

  lemma ExtraPast(words: seq<string>, i: nat, name: string)
    requires i + 1 >= |words|
    ensures ExtraOf(words, i, name) == None
  {
  }

  /** The words of a candidate, looked up pair by pair. */
  lemma {:induction false} ExtraOfAppended(words: seq<string>, i: nat, more: seq<string>, name: string)
    requires i <= |words| && (|words| - i) % 2 == 0
    ensures ExtraOf(words + more, i, name) ==
              match ExtraOf(words + more, |words|, name)
              case Some(v) => Some(v)
              case None => ExtraOf(words, i, name)
    decreases |words| - i
  {
    if i < |words| {
      ExtraOfAppended(words, i + 2, more, name);
      assert (words + more)[i] == words[i] && (words + more)[i + 1] == words[i + 1];
    }
  }

  lemma OnePair(words: seq<string>, first: string, value: Option<string>, name: string)
    requires |words| % 2 == 0
    ensures |Pair(first, value)| % 2 == 0
    ensures ExtraOf(words + Pair(first, value), |words|, name) == if first == name then value else None
  {
    match value
    case Some(v) =>
      var all := words + [first, v];
      assert all[|words|] == first && all[|words| + 1] == v;
      ExtraPast(all, |words| + 2, name);
    case None =>
      assert words + [] == words;
  }

  lemma PairAdded(words: seq<string>, from: nat, first: string, value: Option<string>, name: string)
    requires from <= |words| && from % 2 == 0 && |words| % 2 == 0
    ensures ExtraOf(words + Pair(first, value), from, name) ==
              if first == name && value.Some? then value else ExtraOf(words, from, name)
    ensures |words + Pair(first, value)| % 2 == 0
  {
    hide ExtraOf, Pair;
    OnePair(words, first, value, name);
    ExtraOfAppended(words, from, Pair(first, value), name);
  }

  lemma ExtrasOfWords(head: seq<string>, typ: Option<string>, raddr: Option<string>, rport: Option<string>,
                      generation: string, name: string)
    requires |head| == 6
    ensures ExtraOf(head + Pair("typ", typ) + Pair("raddr", raddr) + Pair("rport", rport) + ["generation", generation], 6, name)
              == if name == "generation" then Some(generation)
                 else if name == "rport" then rport
                 else if name == "raddr" then raddr
                 else if name == "typ" then typ
                 else None
  {
    hide ExtraOf, Pair;
    ExtraPast(head, 6, name);
    var w1 := head + Pair("typ", typ);
    PairAdded(head, 6, "typ", typ, name);
    var w2 := w1 + Pair("raddr", raddr);
    PairAdded(w1, 6, "raddr", raddr, name);
    var w3 := w2 + Pair("rport", rport);
    PairAdded(w2, 6, "rport", rport, name);
    PairIsTwo("generation", generation);
    PairAdded(w3, 6, "generation", Some(generation), name);
    assert "typ"[0] != "raddr"[0] && "raddr"[1] != "rport"[1] && |"generation"| == 10;
  }

  lemma PairIsTwo(name: string, value: string)
    ensures Pair(name, Some(value)) == [name, value]
  {
  }

  lemma CandidateReread(lower: Lower, value: string)
    requires LowerLaw(lower) && CandidateFrom(lower, value).Some?
    ensures var words := CandidateWords(CandidateFrom(lower, value).value);
            && words.Some?
            && CandidateFrom(lower, Join(words.value, " ")).Some?
            && CandidateWords(CandidateFrom(lower, Join(words.value, " ")).value) == words
  {
    hide ExtraOf, Join, WordsOf;
    CandidateHasWords(lower, value);
    var c := CandidateFrom(lower, value).value;
    var words := CandidateWords(c).value;
    WordsOfJoined(words);
    var head := words[..6];
    var w := WordsOf(value);
    assert LowerTwice(lower, w[2]) by {
      WordsAreWords(value);
      assert IsWord(w[2]);
    }
    var g := Or(c.generation, "0");
    assert words == head + Pair("typ", c.kind) + Pair("raddr", c.relAddr) + Pair("rport", c.relPort) + ["generation", g];
    ExtrasOfWords(head, c.kind, c.relAddr, c.relPort, g, "typ");
    ExtrasOfWords(head, c.kind, c.relAddr, c.relPort, g, "raddr");
    ExtrasOfWords(head, c.kind, c.relAddr, c.relPort, g, "rport");
    ExtrasOfWords(head, c.kind, c.relAddr, c.relPort, g, "generation");
    assert "typ"[0] != "raddr"[0] && "raddr"[1] != "rport"[1] && |"generation"| == 10;
  }

  /** Main result: a candidate line of the six words and these pairs comes back as it was, but for the
      protocol in lower case. */
  lemma CandidateLineIsKept(lower: Lower, head: seq<string>, typ: Option<string>, raddr: Option<string>,
                            rport: Option<string>, generation: string)
    requires |head| == 6
    requires AllWords(head + Pair("typ", typ) + Pair("raddr", raddr) + Pair("rport", rport) + ["generation", generation])
    ensures var line := head + Pair("typ", typ) + Pair("raddr", raddr) + Pair("rport", rport) + ["generation", generation];
            var c := CandidateFrom(lower, Join(line, " "));
            c.Some? && CandidateWords(c.value) == Some(line[2 := lower(head[2])])
  {
    hide ExtraOf, Join, WordsOf, AllWords;
    var rest := Pair("typ", typ) + Pair("raddr", raddr) + Pair("rport", rport) + ["generation", generation];
    var line := head + Pair("typ", typ) + Pair("raddr", raddr) + Pair("rport", rport) + ["generation", generation];
    assert line == head + rest;
    WordsOfJoined(line);
    ExtrasOfWords(head, typ, raddr, rport, generation, "typ");
    ExtrasOfWords(head, typ, raddr, rport, generation, "raddr");
    ExtrasOfWords(head, typ, raddr, rport, generation, "rport");
    ExtrasOfWords(head, typ, raddr, rport, generation, "generation");
    assert "typ"[0] != "raddr"[0] && "raddr"[1] != "rport"[1] && |"generation"| == 10;
    assert WordsOf(Join(line, " ")) == line && forall i :: 0 <= i < 6 ==> line[i] == head[i];
    var c := Candidate(Some(head[0]), Some(head[1]), Some(lower(head[2])), Some(head[3]), Some(head[4]), Some(head[5]),
                       typ, raddr, rport, Some(generation));
    assert CandidateFrom(lower, Join(line, " ")) == Some(c);
    hide Pair, CandidateFrom;
    var first := [head[0], head[1], lower(head[2]), head[3], head[4], head[5]];
    assert first == head[2 := lower(head[2])];
    SecondPart(head, rest, 2, lower(head[2]));
    RegroupWords(first, Pair("typ", typ), Pair("raddr", raddr), Pair("rport", rport), ["generation", generation]);
    assert CandidateWords(c) == Some(first + rest);
  }

  lemma SecondPart(a: seq<string>, b: seq<string>, i: nat, w: string)
    requires i < |a|
    ensures (a + b)[i := w] == a[i := w] + b
  {
  }

  lemma RegroupWords(a: seq<string>, b: seq<string>, c: seq<string>, d: seq<string>, e: seq<string>)
    ensures a + b + c + d + e == a + (b + c + d + e)
  {
  }

  predicate LowerTwice(lower: Lower, w: string) {
    lower(lower(w)) == lower(w)
  }
}
