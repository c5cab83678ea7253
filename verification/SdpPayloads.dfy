/** The payloads of a section, after the section was written and parsed again. */
module SdpPayloads {
  import opened Wrappers
  import opened Text
  import opened Words
  import opened Sdp
  import opened SdpParsed
  import opened SdpNormal
  import opened SdpContents

  // ---- what was gathered -------------------------------------------------

  function NormalEntries(ps: seq<Payload>): (r: seq<Entry>)
    ensures |r| == |ps| && forall i :: 0 <= i < |ps| ==> r[i] == NormalEntry(ps[i])
  {
    seq(|ps|, i requires 0 <= i < |ps| => NormalEntry(ps[i]))
  }

  function GatheredFmtp(ps: seq<Payload>): seq<Entry> {
    if ps == [] then [] else GatheredFmtp(ps[..|ps| - 1]) + FmtpEntries(ps[|ps| - 1])
  }

  function GatheredFb(ps: seq<Payload>): seq<Entry> {
    if ps == [] then [] else GatheredFb(ps[..|ps| - 1]) + FbEntries(Or(ps[|ps| - 1].id, ""), ps[|ps| - 1].feedback)
  }

  lemma {:induction false} PayloadsGathered(m: Media, ps: seq<Payload>)
    ensures WithPayloads(m, ps) ==
              m.(rtpmap := m.rtpmap + NormalEntries(ps), fmtp := m.fmtp + GatheredFmtp(ps),
                 rtcpFb := m.rtcpFb + GatheredFb(ps))
  {
    hide NormalEntry, FmtpEntries, FbEntries;
    if ps == [] {
      assert m.rtpmap + [] == m.rtpmap && m.fmtp + [] == m.fmtp && m.rtcpFb + [] == m.rtcpFb;
    } else {
      var front, p := ps[..|ps| - 1], ps[|ps| - 1];
      PayloadsGathered(m, front);
      assert NormalEntries(ps) == NormalEntries(front) + [NormalEntry(p)];
      Associate(m.rtpmap, NormalEntries(front), [NormalEntry(p)]);
      Associate(m.fmtp, GatheredFmtp(front), FmtpEntries(p));
      Associate(m.rtcpFb, GatheredFb(front), FbEntries(Or(p.id, ""), p.feedback));
    }
  }

  // ---- looking an id up again --------------------------------------------

  function Count(es: seq<Entry>, id: string): nat {
    if es == [] then 0 else Count(es[..|es| - 1], id) + if es[|es| - 1].0 == id then 1 else 0
  }

  lemma {:induction false} CountOfMember(es: seq<Entry>, i: nat)
    requires i < |es|
    ensures Count(es, es[i].0) >= 1
  {
    if i < |es| - 1 {
      CountOfMember(es[..|es| - 1], i);
    }
  }

  function Times<T>(n: nat, values: seq<T>): seq<T> {
    if n == 0 then [] else Times(n - 1, values) + values
  }

  lemma {:induction false} TimesLength<T>(n: nat, values: seq<T>)
    ensures |Times(n, values)| == n * |values|
  {
    if n > 0 {
      TimesLength(n - 1, values);
    }
  }

  lemma {:induction false} FirstForAppended(a: seq<Entry>, b: seq<Entry>, id: string)
    ensures FirstFor(a + b, id) == if FirstFor(a, id).Some? then FirstFor(a, id) else FirstFor(b, id)
  {
    if a == [] {
      assert a + b == b;
    } else {
      assert (a + b)[1..] == a[1..] + b;
      FirstForAppended(a[1..], b, id);
    }
  }

  lemma {:induction false} AllForAppended(a: seq<Entry>, b: seq<Entry>, id: string)
    ensures AllFor(a + b, id) == AllFor(a, id) + AllFor(b, id)
  {
    if a == [] {
      assert a + b == b;
    } else {
      assert (a + b)[1..] == a[1..] + b;
      AllForAppended(a[1..], b, id);
      Associate(if a[0].0 == id then [a[0].1] else [], AllFor(a[1..], id), AllFor(b, id));
    }
  }

  lemma FmtpEntriesOf(m: Media, e: Entry, id: string)
    ensures FirstFor(FmtpEntries(PayloadOf(m, e)), id) ==
              if e.0 == id && ParamsFor(m, id) != [] then Some(Join(ParamsFor(m, id), ";")) else None
  {
    hide Join, ParametersIn, Split, AllFeedback, AllFor;
    var p := PayloadOf(m, e);
    assert ParameterTexts(p.parameters) == ParamsFor(m, e.0);
  }

  /** The first format line written for an id has what the first one parsed came down to. */
  lemma {:induction false} FmtpFoundAgain(m: Media, es: seq<Entry>, id: string)
    ensures FirstFor(GatheredFmtp(PayloadsOf(m, es)), id) ==
              if Count(es, id) > 0 && ParamsFor(m, id) != [] then Some(Join(ParamsFor(m, id), ";")) else None
  {
    hide Join, ParamsFor, FmtpEntries, PayloadOf;
    if es != [] {
      var front, e := es[..|es| - 1], es[|es| - 1];
      FmtpFoundAgain(m, front, id);
      assert PayloadsOf(m, es)[..|es| - 1] == PayloadsOf(m, front);
      FmtpEntriesOf(m, e, id);
      FirstForAppended(GatheredFmtp(PayloadsOf(m, front)), FmtpEntries(PayloadOf(m, e)), id);
    }
  }

  /** The feedback values of an id, each down to its first two words. */
  function FbTexts(m: Media, id: string): (r: seq<string>)
    ensures |r| == |AllFor(m.rtcpFb, id)|
    ensures forall i :: 0 <= i < |r| ==> r[i] == FbText(FeedbackOf(AllFor(m.rtcpFb, id)[i]))
  {
    var values := AllFor(m.rtcpFb, id);
    seq(|values|, i requires 0 <= i < |values| => FbText(FeedbackOf(values[i])))
  }

  lemma {:induction false} AllForOne(id: string, wanted: string, texts: seq<string>, es: seq<Entry>)
    requires |es| == |texts| && forall i :: 0 <= i < |es| ==> es[i] == (id, texts[i])
    ensures AllFor(es, wanted) == if id == wanted then texts else []
  {
    if es != [] {
      AllForOne(id, wanted, texts[1..], es[1..]);
      assert [texts[0]] + texts[1..] == texts;
    }
  }

  lemma FbEntriesOf(m: Media, e: Entry, id: string)
    ensures AllFor(FbEntries(e.0, PayloadOf(m, e).feedback), id) == if e.0 == id then FbTexts(m, id) else []
  {
    hide FbText, FeedbackOf, AllFor, ParametersIn, Split, AllFeedback;
    var fs := PayloadOf(m, e).feedback;
    AllFeedbackAt(AllFor(m.rtcpFb, e.0));
    AllForOne(e.0, id, FbTexts(m, e.0), FbEntries(e.0, fs));
  }

  /** The feedback lines written for an id: once for each payload that has the id. */
  lemma {:induction false} FbFoundAgain(m: Media, es: seq<Entry>, id: string)
    ensures AllFor(GatheredFb(PayloadsOf(m, es)), id) == Times(Count(es, id), FbTexts(m, id))
  {
    hide FbEntries, FbTexts, AllFor;
    if es == [] {
      assert AllFor([], id) == [] by {
        AllForOne(id, id, [], []);
      }
    } else {
      var front, e := es[..|es| - 1], es[|es| - 1];
      FbFoundAgain(m, front, id);
      assert PayloadsOf(m, es)[..|es| - 1] == PayloadsOf(m, front);
      FbEntriesOf(m, e, id);
      AllForAppended(GatheredFb(PayloadsOf(m, front)), FbEntries(e.0, PayloadOf(m, e).feedback), id);
      assert Times(Count(front, id), FbTexts(m, id)) + [] == Times(Count(front, id), FbTexts(m, id));
    }
  }

  // ---- the rtpmap value --------------------------------------------------

  /** With four or more parts, the third, which is kept, does not end in white space. */
  predicate ChannelsOk(value: string) {
    |Split(value, '/')| > 3 ==> Split(value, '/')[2] == "" || Ends(Split(value, '/')[2])
  }

  lemma SplitFirst(s: string, c: char) returns (n: nat)
    ensures n == Before(s, c) <= |s|
    ensures n == |s| ==> Split(s, c) == [s]
    ensures n < |s| ==> Split(s, c) == [s[..n]] + Split(s[n + 1..], c)
  {
    n := Before(s, c);
  }

  lemma {:induction false} LastPartEnds(value: string)
    requires Field(value)
    ensures Field(Split(value, '/')[|Split(value, '/')| - 1])
    decreases |value|
  {
    hide Split, Before;
    var n := SplitFirst(value, '/');
    if n < |value| {
      SuffixOfField(value, n + 1);
      LastPartEnds(value[n + 1..]);
    }
  }

  predicate NoSlash(s: string) {
    '/' !in s
  }

  lemma PayloadParts(m: Media, e: Entry)
    ensures var p := PayloadOf(m, e);
            NoSlash(Or(p.name, "")) && NoSlash(Or(p.clockrate, "90000")) && (p.channels.Some? ==> NoSlash(p.channels.value))
            && p.name.Some? && (p.clockrate.Some? ==> p.clockrate.value != "")
  {
    hide Split, ParametersIn, AllFeedback, AllFor, FirstFor;
    SplitHasNoSeparator(e.1, '/');
    assert NoSlash("90000");
  }

  lemma SplitThree(name: string, clockrate: string, channels: Option<string>)
    requires NoSlash(name) && NoSlash(clockrate) && (channels.Some? ==> NoSlash(channels.value))
    ensures Split(RtpmapValue(name, clockrate, channels), '/') ==
              [name, clockrate] + (match channels case Some(ch) => [ch] case None => [])
  {
    hide Split;
    match channels
    case Some(ch) =>
      var tail := clockrate + ['/'] + ch;
      assert RtpmapValue(name, clockrate, channels) == name + ['/'] + tail;
      SplitAt(name, '/', tail);
      SplitAt(clockrate, '/', ch);
      SplitNone(ch, '/');
    case None =>
      assert RtpmapValue(name, clockrate, channels) == name + ['/'] + clockrate;
      SplitAt(name, '/', clockrate);
      SplitNone(clockrate, '/');
  }

  function TrimmedChannels(channels: Option<string>): Option<string> {
    match channels case Some(ch) => Some(TrimEnd(ch)) case None => None
  }

  lemma {:induction false} TrimEndKeepsNoSlash(s: string)
    requires NoSlash(s)
    ensures NoSlash(TrimEnd(s))
  {
    assert forall i :: 0 <= i < |TrimEnd(s)| ==> TrimEnd(s)[i] == s[i];
  }

  lemma TrimmedValue(name: string, clockrate: string, channels: Option<string>)
    requires channels.None? ==> Ends(clockrate)
    ensures TrimEnd(RtpmapValue(name, clockrate, channels)) == RtpmapValue(name, clockrate, TrimmedChannels(channels))
  {
    hide TrimEnd;
    match channels
    case Some(ch) =>
      assert RtpmapValue(name, clockrate, channels) == (name + "/" + clockrate + "/") + ch;
      TrimEndAfter(name + "/" + clockrate + "/", ch);
    case None =>
      var s := name + "/" + clockrate;
      assert RtpmapValue(name, clockrate, channels) == s;
      assert s + "" == s;
      assert Ends(s);
      TrimEndAfter(s, "");
      TrimEndOfNothing();
  }

  lemma TrimEndOfNothing()
    ensures TrimEnd("") == ""
  {
  }
}
