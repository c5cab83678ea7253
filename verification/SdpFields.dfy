/** What the lines of a media section say, line by line, and what its content says then. */
module SdpFields {
  import opened Wrappers
  import opened Text
  import opened Sdp

  // ---- sections ------------------------------------------------------------

  function Said(lines: seq<string>): (r: seq<Line>)
    ensures |r| == |lines| && forall i :: 0 <= i < |lines| ==> r[i] == ReadLine(lines[i])
  {
    seq(|lines|, i requires 0 <= i < |lines| => ReadLine(lines[i]))
  }

  function Told(m: Media, said: seq<Line>): Media {
    if said == [] then m else Update(Told(m, said[..|said| - 1]), said[|said| - 1])
  }

  lemma {:induction false} AddAllAppends(media: seq<Media>, a: seq<string>, b: seq<string>)
    ensures AddAll(media, a + b) == AddAll(AddAll(media, a), b)
    decreases |b|
  {
    hide Add, ReadLine;
    if b == [] {
      assert a + b == a;
    } else {
      assert (a + b)[..|a + b| - 1] == a + b[..|b| - 1];
      AddAllAppends(media, a, b[..|b| - 1]);
    }
  }

  lemma {:induction false} LinesOfLast(media: seq<Media>, m: Media, lines: seq<string>)
    requires forall i :: 0 <= i < |lines| ==> !ReadLine(lines[i]).MediaLine?
    ensures AddAll(media + [m], lines) == media + [Told(m, Said(lines))]
  {
    hide Update, ReadLine;
    if lines != [] {
      LinesOfLast(media, m, lines[..|lines| - 1]);
      assert Said(lines)[..|lines| - 1] == Said(lines[..|lines| - 1]);
    }
  }

  /** A media line begins a section, and the lines up to the next one belong to it. */
  lemma OneSection(before: seq<string>, line: string, lines: seq<string>)
    requires ReadLine(line).MediaLine? && forall i :: 0 <= i < |lines| ==> !ReadLine(lines[i]).MediaLine?
    ensures AddAll([], before + ([line] + lines))
              == AddAll([], before) + [Told(NewMedia(ReadLine(line).kind), Said(lines))]
  {
    hide ReadLine, NewMedia, Told;
    var media := AddAll([], before);
    AddAllAppends([], before, [line] + lines);
    AddAllAppends(media, [line], lines);
    assert [line][..0] == [];
    LinesOfLast(media, NewMedia(ReadLine(line).kind), lines);
  }

  // ---- fields --------------------------------------------------------------

  function LastOf<T>(said: seq<Line>, pick: Line -> Option<T>): Option<T> {
    if said == [] then None
    else
      var last := pick(said[|said| - 1]);
      if last.Some? then last else LastOf(said[..|said| - 1], pick)
  }

  function FirstOf<T>(said: seq<Line>, pick: Line -> Option<T>): Option<T> {
    if said == [] then None
    else
      var first := FirstOf(said[..|said| - 1], pick);
      if first.Some? then first else pick(said[|said| - 1])
  }

  function AllOf<T>(said: seq<Line>, pick: Line -> Option<T>): seq<T> {
    if said == [] then []
    else AllOf(said[..|said| - 1], pick) + (match pick(said[|said| - 1]) case Some(v) => [v] case None => [])
  }

  // What a line is looked at for.

  function MidIn(l: Line): Option<string> { if l.Mid? then Some(l.value) else None }
  function UfragIn(l: Line): Option<string> { if l.Ufrag? then Some(l.value) else None }
  function PwdIn(l: Line): Option<string> { if l.Pwd? then Some(l.value) else None }
  function SetupIn(l: Line): Option<string> { if l.Setup? then Some(l.value) else None }
  function FingerprintIn(l: Line): Option<Entry> { if l.FingerprintOf? then Some((l.hash, l.value)) else None }
  function RtpmapIn(l: Line): Option<Entry> { if l.Rtpmap? then Some((l.id, l.value)) else None }
  function FmtpIn(l: Line): Option<Entry> { if l.Fmtp? then Some((l.id, l.value)) else None }
  function RtcpFbIn(l: Line): Option<Entry> { if l.RtcpFb? then Some((l.id, l.value)) else None }
  function SsrcIn(l: Line): Option<string> { if l.Ssrc? then Some(l.id) else None }
  function CandidateIn(l: Line): Option<string> { if l.CandidateOf? then Some(l.value) else None }

  /** The canonical name that a source line gives, if it gives one. */
  function CnameIn(l: Line): Option<string> {
    if l.Ssrc? && |l.value| >= 6 && l.value[..6] == "cname:" then Some(l.value[6..]) else None
  }

  lemma {:induction false} ValuesSaid(kind: string, said: seq<Line>)
    ensures var m := Told(NewMedia(kind), said);
            && m.kind == kind && m.mid == Or(LastOf(said, MidIn), "")
            && m.ufrag == Or(LastOf(said, UfragIn), "") && m.pwd == Or(LastOf(said, PwdIn), "")
            && m.setup == Or(LastOf(said, SetupIn), "")
            && (m.fingerprintHash, m.fingerprint)
                 == (match LastOf(said, FingerprintIn) case Some(fp) => fp case None => ("", ""))
  {
    if said != [] {
      ValuesSaid(kind, said[..|said| - 1]);
    }
  }

  lemma {:induction false} EntriesSaid(kind: string, said: seq<Line>)
    ensures var m := Told(NewMedia(kind), said);
            m.rtpmap == AllOf(said, RtpmapIn) && m.fmtp == AllOf(said, FmtpIn)
  {
    if said != [] {
      EntriesSaid(kind, said[..|said| - 1]);
    }
  }

  lemma {:induction false} FeedbackSaid(kind: string, said: seq<Line>)
    ensures Told(NewMedia(kind), said).rtcpFb == AllOf(said, RtcpFbIn)
  {
    if said != [] {
      FeedbackSaid(kind, said[..|said| - 1]);
    }
  }

  lemma {:induction false} SourceSaid(kind: string, said: seq<Line>)
    ensures var m := Told(NewMedia(kind), said);
            && m.candidates == AllOf(said, CandidateIn)
            && m.ssrc == FirstOf(said, SsrcIn) && m.cname == FirstOf(said, CnameIn)
  {
    if said != [] {
      SourceSaid(kind, said[..|said| - 1]);
    }
  }

  /** Main result: of a single-valued attribute the last line counts, of source and canonical name the
      first; entries and candidates are kept in their order; and what no line says is empty. */
  lemma SectionSays(kind: string, said: seq<Line>)
    ensures var m := Told(NewMedia(kind), said);
            && m.kind == kind && m.mid == Or(LastOf(said, MidIn), "")
            && m.ufrag == Or(LastOf(said, UfragIn), "") && m.pwd == Or(LastOf(said, PwdIn), "")
            && m.setup == Or(LastOf(said, SetupIn), "")
            && (m.fingerprintHash, m.fingerprint)
                 == (match LastOf(said, FingerprintIn) case Some(fp) => fp case None => ("", ""))
            && m.rtpmap == AllOf(said, RtpmapIn) && m.fmtp == AllOf(said, FmtpIn) && m.rtcpFb == AllOf(said, RtcpFbIn)
            && m.candidates == AllOf(said, CandidateIn)
            && m.ssrc == FirstOf(said, SsrcIn) && m.cname == FirstOf(said, CnameIn)
  {
    hide Told;
    ValuesSaid(kind, said);
    EntriesSaid(kind, said);
    FeedbackSaid(kind, said);
    SourceSaid(kind, said);
  }

  /** A content is named after its section's `mid`, or its kind if there is none, and carries a source only
      with a canonical name and a fingerprint only if there is one. */
  lemma ContentSays(lower: Lower, m: Media)
    ensures var c := ContentOf(lower, m);
            && c.name == Some(if m.mid != "" then m.mid else m.kind)
            && c.description.Some? && c.transport.Some?
            && c.description.value.media == Some(m.kind)
            && |c.description.value.payloads| == |m.rtpmap|
            && c.description.value.source
                 == (if m.ssrc.None? || m.cname.None? then None else Some(Source(m.ssrc, m.cname)))
            && c.transport.value.ufrag == Some(m.ufrag) && c.transport.value.pwd == Some(m.pwd)
            && c.transport.value.fingerprint
                 == (if m.fingerprint == "" then None
                     else Some(Fingerprint(Some(m.fingerprintHash), if m.setup == "" then None else Some(m.setup), m.fingerprint)))
  {
  }

  // ---- what is written -----------------------------------------------------

  /** A transport that can be the shared one. */
  predicate HasUfrag(c: Content) {
    c.transport.Some? && c.transport.value.ufrag.Some? && c.transport.value.ufrag.value != ""
  }

  /** The credentials of every section are those of the first content with a user fragment. */
  lemma {:induction false} BundleIsTheFirst(cs: seq<Content>, k: nat)
    requires k <= |cs| && forall i :: 0 <= i < k ==> !HasUfrag(cs[i])
    ensures k < |cs| && HasUfrag(cs[k]) ==>
              var t := cs[k].transport.value;
              BundleOf(cs) == Bundle(t.ufrag.value, if t.pwd.Some? then t.pwd.value else "", t.fingerprint)
    ensures k == |cs| ==> BundleOf(cs) == Bundle("", "", None)
  {
    if k > 0 {
      BundleIsTheFirst(cs[1..], k - 1);
    }
  }

  /** The media line lists the payload ids in order. */
  lemma {:induction false} IdsAreListed(ps: seq<Payload>)
    requires forall i :: 0 <= i < |ps| ==> ps[i].id.Some?
    ensures |Ids(ps)| == |ps| && forall i :: 0 <= i < |ps| ==> Ids(ps)[i] == ps[i].id.value
  {
    if ps != [] {
      IdsAreListed(ps[..|ps| - 1]);
    }
  }

  /** The two lines that are written and not read again, as text. */
  lemma MediaLineText(kind: string, ids: seq<string>)
    ensures Show(MediaOut(kind, ids)) == "m=" + kind + " 9 " + "UDP/TLS/RTP/SAVPF" + (" " + Join(ids, " "))
  {
    hide Join;
    RegroupMedia("m=", kind, " ", "9 ", "UDP/TLS/RTP/SAVPF", " " + Join(ids, " "));
    assert " " + "9 " == " 9 ";
  }

  lemma RegroupMedia(a: string, b: string, c: string, d: string, e: string, f: string)
    ensures a + (b + c + (d + (e + f))) == a + b + (c + d) + e + f
  {
  }

  lemma GroupLineText(mids: seq<string>)
    ensures Show(GroupOut(mids)) == "a=group:BUNDLE " + Join(mids, " ")
  {
    hide Join;
    assert "a=" + "group" + ":" + ("BUNDLE " + Join(mids, " ")) == "a=group:BUNDLE " + Join(mids, " ");
  }

  /** A content without a name is called 0. */
  lemma NamesInTheGroup(cs: seq<Content>)
    ensures |Mids(cs)| == |cs|
    ensures forall i :: 0 <= i < |cs| ==> Mids(cs)[i] == if cs[i].name.Some? then cs[i].name.value else "0"
  {
  }
}
