/**
  SDP and Jingle: parsing media sections, making a content of each, and writing an SDP from contents.

  A Jingle element is a record of the attributes and children this translation uses; `None` is a missing
  one. `lower` stands for `to_lowercase`. A candidate's `id` is random and never read, so it is left out.
 */
module Sdp {
  import opened Wrappers
  import opened Text
  import opened Words

  type Lower = string -> string
  type Entry = (string, string)

  // ---- media sections ----------------------------------------------------

  datatype Media = Media(
    kind: string, mid: string, ufrag: string, pwd: string,
    fingerprintHash: string, fingerprint: string, setup: string,
    rtpmap: seq<Entry>, fmtp: seq<Entry>, rtcpFb: seq<Entry>,
    ssrc: Option<string>, cname: Option<string>, candidates: seq<string>)

  function NewMedia(kind: string): Media {
    Media(kind, "", "", "", "", "", "", [], [], [], None, None, [])
  }

  /** What one line means to the parser. */
  datatype Line =
    | MediaLine(kind: string)
    | Mid(value: string)
    | Ufrag(value: string)
    | Pwd(value: string)
    | Setup(value: string)
    | FingerprintOf(hash: string, value: string)
    | Rtpmap(id: string, value: string)
    | Fmtp(id: string, value: string)
    | RtcpFb(id: string, value: string)
    | Ssrc(id: string, value: string)
    | CandidateOf(value: string)
    | OtherLine

  function AttributeLine(key: string, value: string): Line {
    if key == "mid" then Mid(value)
    else if key == "ice-ufrag" then Ufrag(value)
    else if key == "ice-pwd" then Pwd(value)
    else if key == "setup" then Setup(value)
    else if key == "candidate" then CandidateOf(value)
    else
      match SplitOnce(value, ' ')
      case None => OtherLine
      case Some((id, rest)) =>
        if key == "fingerprint" then FingerprintOf(id, rest)
        else if key == "rtpmap" then Rtpmap(id, rest)
        else if key == "fmtp" then Fmtp(id, rest)
        else if key == "rtcp-fb" then RtcpFb(id, rest)
        else if key == "ssrc" then Ssrc(id, rest)
        else OtherLine
  }

  /** What stands after `a=`: a key and, after a colon, a value. */
  function AttributeOf(attribute: string): Line {
    match SplitOnce(attribute, ':')
    case Some((key, value)) => AttributeLine(key, value)
    case None => AttributeLine(attribute, "")
  }

  function ReadTrimmed(line: string): Line {
    match StripPrefix(line, "m=")
    case Some(rest) => MediaLine(if WordsOf(rest) == [] then "" else WordsOf(rest)[0])
    case None =>
      match StripPrefix(line, "a=")
      case Some(attribute) => AttributeOf(attribute)
      case None => OtherLine
  }

  function ReadLine(raw: string): Line {
    ReadTrimmed(TrimEnd(raw))
  }

  function Update(m: Media, l: Line): Media {
    match l
    case Mid(v) => m.(mid := v)
    case Ufrag(v) => m.(ufrag := v)
    case Pwd(v) => m.(pwd := v)
    case Setup(v) => m.(setup := v)
    case FingerprintOf(hash, v) => m.(fingerprintHash := hash, fingerprint := v)
    case Rtpmap(id, v) => m.(rtpmap := m.rtpmap + [(id, v)])
    case Fmtp(id, v) => m.(fmtp := m.fmtp + [(id, v)])
    case RtcpFb(id, v) => m.(rtcpFb := m.rtcpFb + [(id, v)])
    case Ssrc(id, v) =>
      var cname := StripPrefix(v, "cname:");
      m.(ssrc := if m.ssrc.None? then Some(id) else m.ssrc,
         cname := if m.cname.None? then cname else m.cname)
    case CandidateOf(v) => m.(candidates := m.candidates + [v])
    case OtherLine => m
    case MediaLine(_) => m
  }

  /** Lines before the first media line belong to no section. */
  function Add(media: seq<Media>, l: Line): seq<Media> {
    if l.MediaLine? then media + [NewMedia(l.kind)]
    else if media == [] then media
    else media[|media| - 1 := Update(media[|media| - 1], l)]
  }

  function AddAll(media: seq<Media>, lines: seq<string>): seq<Media> {
    if lines == [] then media
    else Add(AddAll(media, lines[..|lines| - 1]), ReadLine(lines[|lines| - 1]))
  }

  /** `str::lines`; a carriage return at the end goes with the white space trimmed from each line. */
  function Lines(text: string): seq<string> {
    var parts := Split(text, '\n');
    if parts[|parts| - 1] == "" then parts[..|parts| - 1] else parts
  }

  lemma AddOneMore(media: seq<Media>, lines: seq<string>, i: nat)
    requires i < |lines|
    ensures AddAll(media, lines[..i + 1]) == Add(AddAll(media, lines[..i]), ReadLine(lines[i]))
  {
    assert lines[..i + 1][..i] == lines[..i];
  }

  method ParseMedia(sdp: string) returns (out: seq<Media>)
    ensures out == AddAll([], Lines(sdp))
  {
    out := [];
    var lines := Lines(sdp);
    for i := 0 to |lines|
      invariant out == AddAll([], lines[..i])
    {
      AddOneMore([], lines, i);
      out := ParseLine(out, lines[i]);
    }
    assert lines[..|lines|] == lines;
  }

  /** What a line does to the sections, by how it begins. */
  lemma AddedLine(media: seq<Media>, raw: string)
    ensures var line := TrimEnd(raw);
            Add(media, ReadLine(raw)) ==
              match StripPrefix(line, "m=")
              case Some(rest) => media + [NewMedia(if WordsOf(rest) == [] then "" else WordsOf(rest)[0])]
              case None =>
                match StripPrefix(line, "a=")
                case Some(attribute) =>
                  if media == [] then media else media[|media| - 1 := Update(media[|media| - 1], AttributeOf(attribute))]
                case None => media
  {
    hide TrimEnd, WordsOf, StripPrefix, NewMedia;
    var attribute := StripPrefix(TrimEnd(raw), "a=");
    if attribute.Some? {
      AttributesAreNoMedia(attribute.value);
    }
    hide AttributeOf;
    assert media != [] ==> media[|media| - 1 := Update(media[|media| - 1], OtherLine)] == media;
  }

  lemma AttributesAreNoMedia(attribute: string)
    ensures !AttributeOf(attribute).MediaLine?
  {
  }

  method ParseLine(media: seq<Media>, raw: string) returns (out: seq<Media>)
    ensures out == Add(media, ReadLine(raw))
  {
    AddedLine(media, raw);
    hide TrimEnd, WordsOf, AttributeOf, NewMedia, Update, StripPrefix, Add, ReadLine;
    out := media;
    var line := TrimEnd(raw);
    var rest := StripPrefix(line, "m=");
    if rest.Some? {
      var words := WordsOf(rest.value);
      out := out + [NewMedia(if words == [] then "" else words[0])];
      return;
    }
    var attribute := StripPrefix(line, "a=");
    if out == [] || attribute.None? {
      return;
    }
    var m := TakeAttribute(out[|out| - 1], attribute.value);
    out := out[|out| - 1 := m];
  }

  method TakeAttribute(media: Media, attribute: string) returns (m: Media)
    ensures !AttributeOf(attribute).MediaLine?
    ensures m == Update(media, AttributeOf(attribute))
  {
    m := media;
    var (key, val) := match SplitOnce(attribute, ':') case Some(kv) => kv case None => (attribute, "");
    var entry := SplitOnce(val, ' ');
    if key == "mid" {
      m := m.(mid := val);
    } else if key == "ice-ufrag" {
      m := m.(ufrag := val);
    } else if key == "ice-pwd" {
      m := m.(pwd := val);
    } else if key == "setup" {
      m := m.(setup := val);
    } else if key == "candidate" {
      m := m.(candidates := m.candidates + [val]);
    } else if entry.Some? {
      var (id, rest) := entry.value;
      if key == "fingerprint" {
        m := m.(fingerprintHash := id);
        m := m.(fingerprint := rest);
      } else if key == "rtpmap" {
        m := m.(rtpmap := m.rtpmap + [(id, rest)]);
      } else if key == "fmtp" {
        m := m.(fmtp := m.fmtp + [(id, rest)]);
      } else if key == "rtcp-fb" {
        m := m.(rtcpFb := m.rtcpFb + [(id, rest)]);
      } else if key == "ssrc" {
        if m.ssrc.None? {
          m := m.(ssrc := Some(id));
        }
        var cname := StripPrefix(rest, "cname:");
        if cname.Some? && m.cname.None? {
          m := m.(cname := cname);
        }
      }
    }
  }

  // ---- Jingle ------------------------------------------------------------

  datatype Parameter = Parameter(name: Option<string>, value: Option<string>)
  datatype Feedback = Feedback(kind: Option<string>, subtype: Option<string>)
  datatype Payload = Payload(
    id: Option<string>, name: Option<string>, clockrate: Option<string>, channels: Option<string>,
    parameters: seq<Parameter>, feedback: seq<Feedback>)
  /** `cname` is the value of the source's first parameter of that name. */
  datatype Source = Source(ssrc: Option<string>, cname: Option<string>)
  datatype Description = Description(media: Option<string>, payloads: seq<Payload>, source: Option<Source>)
  datatype Fingerprint = Fingerprint(hash: Option<string>, setup: Option<string>, text: string)
  datatype Candidate = Candidate(
    foundation: Option<string>, component: Option<string>, protocol: Option<string>,
    priority: Option<string>, ip: Option<string>, port: Option<string>,
    kind: Option<string>, relAddr: Option<string>, relPort: Option<string>, generation: Option<string>)
  datatype Transport = Transport(
    ufrag: Option<string>, pwd: Option<string>, fingerprint: Option<Fingerprint>, candidates: seq<Candidate>)
  datatype Content = Content(name: Option<string>, description: Option<Description>, transport: Option<Transport>)

  function Or(o: Option<string>, default: string): string {
    match o case Some(v) => v case None => default
  }

  function NonEmpty(s: string): Option<string> {
    if s == "" then None else Some(s)
  }

  // ---- from media to Jingle ----------------------------------------------

  function FirstFor(entries: seq<Entry>, id: string): Option<string> {
    if entries == [] then None
    else if entries[0].0 == id then Some(entries[0].1)
    else FirstFor(entries[1..], id)
  }

  function AllFor(entries: seq<Entry>, id: string): seq<string> {
    if entries == [] then []
    else (if entries[0].0 == id then [entries[0].1] else []) + AllFor(entries[1..], id)
  }

  function ParametersIn(parts: seq<string>): seq<Parameter> {
    if parts == [] then []
    else
      (match SplitOnce(Trim(parts[0]), '=')
       case Some((k, v)) => [Parameter(Some(k), Some(v))]
       case None => [])
      + ParametersIn(parts[1..])
  }

  function FeedbackOf(value: string): Feedback {
    var words := WordsOf(value);
    Feedback(Some(if |words| >= 1 then words[0] else ""), if |words| >= 2 then Some(words[1]) else None)
  }

  function AllFeedback(values: seq<string>): (r: seq<Feedback>)
    ensures |r| == |values|
  {
    if values == [] then [] else [FeedbackOf(values[0])] + AllFeedback(values[1..])
  }

  function PayloadOf(m: Media, entry: Entry): Payload {
    var parts := Split(entry.1, '/');
    Payload(
      Some(entry.0),
      Some(parts[0]),
      if |parts| >= 2 then NonEmpty(parts[1]) else None,
      if |parts| >= 3 then Some(parts[2]) else None,
      match FirstFor(m.fmtp, entry.0) case Some(params) => ParametersIn(Split(params, ';')) case None => [],
      AllFeedback(AllFor(m.rtcpFb, entry.0)))
  }

  function PayloadsOf(m: Media, entries: seq<Entry>): (r: seq<Payload>)
    ensures |r| == |entries| && forall i :: 0 <= i < |entries| ==> r[i] == PayloadOf(m, entries[i])
  {
    seq(|entries|, i requires 0 <= i < |entries| => PayloadOf(m, entries[i]))
  }

  /** The pairs after the sixth word; the last of a name wins, as in a hash map filled in order. */
  function ExtraOf(words: seq<string>, i: nat, name: string): Option<string>
    decreases |words| - i
  {
    if i + 1 >= |words| then None
    else
      match ExtraOf(words, i + 2, name)
      case Some(v) => Some(v)
      case None => if words[i] == name then Some(words[i + 1]) else None
  }

  function CandidateFrom(lower: Lower, value: string): Option<Candidate> {
    var w := WordsOf(value);
    if |w| < 6 then None
    else Some(Candidate(
      Some(w[0]), Some(w[1]), Some(lower(w[2])), Some(w[3]), Some(w[4]), Some(w[5]),
      ExtraOf(w, 6, "typ"), ExtraOf(w, 6, "raddr"), ExtraOf(w, 6, "rport"), ExtraOf(w, 6, "generation")))
  }

  /** A pair after the sixth word begins at `i` and has this name. */
  predicate PairAt(words: seq<string>, i: nat, name: string) {
    6 <= i && i % 2 == 0 && i + 1 < |words| && words[i] == name
  }

  /** `value` is what follows the last such name, or there is none. */
  ghost predicate LastOfName(words: seq<string>, name: string, value: Option<string>) {
    match value
    case Some(v) => exists i: nat :: PairAt(words, i, name) && words[i + 1] == v && forall j :: j > i ==> !PairAt(words, j, name)
    case None => forall i: nat :: !PairAt(words, i, name)
  }

  /** Every attribute of a candidate, by where it stands in the line. */
  ghost predicate CandidateSays(lower: Lower, words: seq<string>, c: Candidate) {
    && |words| >= 6
    && c.foundation == Some(words[0]) && c.component == Some(words[1]) && c.protocol == Some(lower(words[2]))
    && c.priority == Some(words[3]) && c.ip == Some(words[4]) && c.port == Some(words[5])
    && LastOfName(words, "typ", c.kind) && LastOfName(words, "raddr", c.relAddr)
    && LastOfName(words, "rport", c.relPort) && LastOfName(words, "generation", c.generation)
  }

  lemma {:induction false} ExtraIsTheLast(words: seq<string>, from: nat, name: string)
    requires from >= 6 && from % 2 == 0
    ensures match ExtraOf(words, from, name)
            case Some(v) => exists i: nat :: from <= i && PairAt(words, i, name) && words[i + 1] == v
                              && forall j :: j > i ==> !PairAt(words, j, name)
            case None => forall i: nat :: from <= i ==> !PairAt(words, i, name)
    decreases |words| - from
  {
    if from + 1 < |words| {
      ExtraIsTheLast(words, from + 2, name);
      if ExtraOf(words, from + 2, name).None? && words[from] == name {
        assert PairAt(words, from, name);
      }
    }
  }

  lemma ExtraIsLastOfName(words: seq<string>, name: string)
    ensures LastOfName(words, name, ExtraOf(words, 6, name))
  {
    hide ExtraOf;
    ExtraIsTheLast(words, 6, name);
  }

  /** Main result: which word of the line each attribute of a candidate is. */
  lemma CandidateIsRead(lower: Lower, value: string)
    ensures CandidateFrom(lower, value).None? <==> |WordsOf(value)| < 6
    ensures match CandidateFrom(lower, value) case Some(c) => CandidateSays(lower, WordsOf(value), c) case None => true
  {
    hide LastOfName, ExtraOf, WordsOf;
    var w := WordsOf(value);
    ExtraIsLastOfName(w, "typ");
    ExtraIsLastOfName(w, "raddr");
    ExtraIsLastOfName(w, "rport");
    ExtraIsLastOfName(w, "generation");
  }

  ghost predicate IsExtra(extra: map<string, string>, words: seq<string>, from: nat, end: nat)
  {
    forall name :: Lookup(extra, name) == ExtraUpTo(words, from, end, name)
  }

  function Lookup(extra: map<string, string>, name: string): Option<string> {
    if name in extra then Some(extra[name]) else None
  }

  /** As `ExtraOf`, looking at the pairs that start before `end`. */
  function ExtraUpTo(words: seq<string>, from: nat, end: nat, name: string): Option<string>
    decreases end
  {
    if end < from + 2 || end > |words| then None
    else if words[end - 2] == name then Some(words[end - 1])
    else ExtraUpTo(words, from, end - 2, name)
  }

  lemma {:induction false} ExtraFromBothEnds(words: seq<string>, from: nat, end: nat, name: string)
    requires from <= end <= |words| && (end - from) % 2 == 0
    ensures ExtraOf(words[..end], from, name) == ExtraUpTo(words, from, end, name)
    decreases end
  {
    if from + 2 <= end {
      ExtraFromBothEnds(words, from, end - 2, name);
      ExtraOneMore(words[..end], from, name);
      assert words[..end][..end - 2] == words[..end - 2];
    }
  }

  lemma {:induction false} ExtraOneMore(words: seq<string>, from: nat, name: string)
    requires from + 2 <= |words| && (|words| - from) % 2 == 0
    ensures ExtraOf(words, from, name) ==
              if words[|words| - 2] == name then Some(words[|words| - 1])
              else ExtraOf(words[..|words| - 2], from, name)
    decreases |words| - from
  {
    if from + 2 < |words| {
      ExtraOneMore(words, from + 2, name);
    }
  }

  lemma {:induction false} ExtraIgnoresAnOddWord(words: seq<string>, from: nat, end: nat, name: string)
    requires from <= end <= |words| < end + 2 && (end - from) % 2 == 0
    ensures ExtraOf(words, from, name) == ExtraOf(words[..end], from, name)
    decreases end - from
  {
    if from + 2 <= end {
      ExtraIgnoresAnOddWord(words, from + 2, end, name);
    }
  }

  lemma NoExtra(words: seq<string>)
    ensures IsExtra(map[], words, 6, 6)
  {
  }

  lemma ExtraLookedUp(extra: map<string, string>, words: seq<string>, i: nat, name: string)
    requires IsExtra(extra, words, 6, i)
    ensures Lookup(extra, name) == ExtraUpTo(words, 6, i, name)
  {
  }

  lemma OneMoreExtra(extra: map<string, string>, words: seq<string>, i: nat)
    requires 6 <= i && i + 2 <= |words| && IsExtra(extra, words, 6, i)
    ensures IsExtra(extra[words[i] := words[i + 1]], words, 6, i + 2)
  {
    var more := extra[words[i] := words[i + 1]];
    forall name ensures Lookup(more, name) == ExtraUpTo(words, 6, i + 2, name) {
      if name != words[i] {
        assert Lookup(more, name) == Lookup(extra, name) == ExtraUpTo(words, 6, i, name);
      }
    }
  }

  method CandidateToJingle(lower: Lower, value: string) returns (r: Option<Candidate>)
    ensures r == CandidateFrom(lower, value)
    ensures r.None? <==> |WordsOf(value)| < 6
    ensures r.Some? ==> CandidateSays(lower, WordsOf(value), r.value)
  {
    var seg := WordsOf(value);
    if |seg| < 6 {
      return None;
    }
    hide IsExtra, Lookup, ExtraUpTo, CandidateSays, WordsOf, ExtraOf;
    var extra: map<string, string> := map[];
    NoExtra(seg);
    var i := 6;
    while i + 1 < |seg|
      invariant 6 <= i <= |seg| && i % 2 == 0
      invariant IsExtra(extra, seg, 6, i)
    {
      OneMoreExtra(extra, seg, i);
      extra := extra[seg[i] := seg[i + 1]];
      i := i + 2;
    }
    forall name ensures Lookup(extra, name) == ExtraOf(seg, 6, name) {
      ExtraFromBothEnds(seg, 6, i, name);
      ExtraIgnoresAnOddWord(seg, 6, i, name);
      ExtraLookedUp(extra, seg, i, name);
    }
    CandidateIsRead(lower, value);
    r := Some(Candidate(
      Some(seg[0]), Some(seg[1]), Some(lower(seg[2])), Some(seg[3]), Some(seg[4]), Some(seg[5]),
      Lookup(extra, "typ"), Lookup(extra, "raddr"), Lookup(extra, "rport"), Lookup(extra, "generation")));
  }

  function CandidatesFrom(lower: Lower, values: seq<string>): seq<Candidate> {
    if values == [] then []
    else
      (match CandidateFrom(lower, values[0]) case Some(c) => [c] case None => [])
      + CandidatesFrom(lower, values[1..])
  }

  function NameOf(m: Media): string {
    if m.mid == "" then m.kind else m.mid
  }

  function ContentOf(lower: Lower, m: Media): Content {
    Content(
      Some(NameOf(m)),
      Some(Description(
        Some(m.kind),
        PayloadsOf(m, m.rtpmap),
        if m.ssrc.Some? && m.cname.Some? then Some(Source(m.ssrc, m.cname)) else None)),
      Some(Transport(
        Some(m.ufrag),
        Some(m.pwd),
        if m.fingerprint == "" then None else Some(Fingerprint(Some(m.fingerprintHash), NonEmpty(m.setup), m.fingerprint)),
        CandidatesFrom(lower, m.candidates))))
  }

  function ContentsOf(lower: Lower, media: seq<Media>): (r: seq<Content>)
    ensures |r| == |media| && forall i :: 0 <= i < |media| ==> r[i] == ContentOf(lower, media[i])
  {
    seq(|media|, i requires 0 <= i < |media| => ContentOf(lower, media[i]))
  }

  /** `sdp_to_contents`. */
  function SdpToContents(lower: Lower, sdp: string): seq<Content> {
    ContentsOf(lower, AddAll([], Lines(sdp)))
  }

  // ---- from Jingle to SDP ------------------------------------------------

  /** One line of the SDP that is written, before it is text. */
  datatype OutLine =
    | FixedOut(text: string)
    | GroupOut(mids: seq<string>)
    | MediaOut(kind: string, ids: seq<string>)
    | AttrOut(key: string, value: string)
    | FingerprintOut(hash: string, value: string)
    | RtpmapOut(id: string, name: string, clockrate: string, channels: Option<string>)
    | FmtpOut(id: string, params: seq<string>)
    | RtcpFbOut(id: string, kind: string, subtype: Option<string>)
    | SsrcOut(ssrc: string, cname: string)
    | CandidateOut(words: seq<string>)

  function AttrLine(key: string, value: string): string {
    "a=" + key + ":" + value
  }

  function Suffix(separator: string, o: Option<string>): string {
    match o case Some(v) => separator + v case None => ""
  }

  function RtpmapValue(name: string, clockrate: string, channels: Option<string>): string {
    name + "/" + clockrate + Suffix("/", channels)
  }

  function Show(l: OutLine): string {
    match l
    case FixedOut(text) => text
    case GroupOut(mids) => AttrLine("group", "BUNDLE " + Join(mids, " "))
    case MediaOut(kind, ids) => "m=" + (kind + " " + ("9 " + ("UDP/TLS/RTP/SAVPF" + (" " + Join(ids, " ")))))
    case AttrOut(key, value) => AttrLine(key, value)
    case FingerprintOut(hash, value) => AttrLine("fingerprint", hash + " " + value)
    case RtpmapOut(id, name, clockrate, channels) => AttrLine("rtpmap", id + " " + RtpmapValue(name, clockrate, channels))
    case FmtpOut(id, params) => AttrLine("fmtp", id + " " + Join(params, ";"))
    case RtcpFbOut(id, kind, subtype) => AttrLine("rtcp-fb", id + " " + (kind + Suffix(" ", subtype)))
    case SsrcOut(ssrc, cname) => AttrLine("ssrc", ssrc + " " + ("cname:" + cname))
    case CandidateOut(words) => AttrLine("candidate", Join(words, " "))
  }

  function PrintLine(l: OutLine): string {
    Show(l) + "\r\n"
  }

  type Printer = OutLine -> string

  /** The lines one after the other, each as `print` gives it. */
  function TextOf(printer: Printer, lines: seq<OutLine>): string {
    if lines == [] then "" else TextOf(printer, lines[..|lines| - 1]) + printer(lines[|lines| - 1])
  }

  function ParameterTexts(ps: seq<Parameter>): seq<string> {
    if ps == [] then []
    else
      (if ps[0].name.Some? && ps[0].value.Some? then [ps[0].name.value + "=" + ps[0].value.value] else [])
      + ParameterTexts(ps[1..])
  }

  function FeedbackLines(id: string, fs: seq<Feedback>): (r: seq<OutLine>)
    ensures |r| == |fs| && forall i :: 0 <= i < |fs| ==> r[i] == RtcpFbOut(id, Or(fs[i].kind, ""), fs[i].subtype)
  {
    seq(|fs|, i requires 0 <= i < |fs| => RtcpFbOut(id, Or(fs[i].kind, ""), fs[i].subtype))
  }

  function FmtpLines(id: string, params: seq<string>): seq<OutLine> {
    if params == [] then [] else [FmtpOut(id, params)]
  }

  function PayloadLines(p: Payload): seq<OutLine> {
    var id := Or(p.id, "");
    [RtpmapOut(id, Or(p.name, ""), Or(p.clockrate, "90000"), p.channels)]
    + FmtpLines(id, ParameterTexts(p.parameters))
    + FeedbackLines(id, p.feedback)
  }

  function AllPayloadLines(ps: seq<Payload>): seq<OutLine> {
    if ps == [] then [] else AllPayloadLines(ps[..|ps| - 1]) + PayloadLines(ps[|ps| - 1])
  }

  function SourceLines(source: Option<Source>): seq<OutLine> {
    match source
    case Some(Source(Some(ssrc), cname)) => [SsrcOut(ssrc, Or(cname, "mxc"))]
    case _ => []
  }

  /** A required attribute that is missing leaves the candidate out. */
  function CandidateWords(c: Candidate): Option<seq<string>> {
    if c.foundation.Some? && c.component.Some? && c.protocol.Some? && c.priority.Some? && c.ip.Some? && c.port.Some? then
      Some([c.foundation.value, c.component.value, c.protocol.value, c.priority.value, c.ip.value, c.port.value]
           + Pair("typ", c.kind) + Pair("raddr", c.relAddr) + Pair("rport", c.relPort)
           + ["generation", Or(c.generation, "0")])
    else None
  }

  function Pair(name: string, value: Option<string>): seq<string> {
    match value case Some(v) => [name, v] case None => []
  }

  function CandidateLines(cs: seq<Candidate>): seq<OutLine> {
    if cs == [] then []
    else CandidateLines(cs[..|cs| - 1]) + OneCandidate(cs[|cs| - 1])
  }

  function OneCandidate(c: Candidate): seq<OutLine> {
    match CandidateWords(c) case Some(words) => [CandidateOut(words)] case None => []
  }

  /** The credentials every media section gets. */
  datatype Bundle = Bundle(ufrag: string, pwd: string, fingerprint: Option<Fingerprint>)

  /** The first transport with a user fragment, as long as there is one. */
  function BundleOf(contents: seq<Content>): Bundle {
    if contents == [] then Bundle("", "", None)
    else
      match contents[0].transport
      case Some(t) =>
        if Or(t.ufrag, "") != "" then Bundle(Or(t.ufrag, ""), Or(t.pwd, ""), t.fingerprint) else BundleOf(contents[1..])
      case None => BundleOf(contents[1..])
  }

  function FingerprintLines(fingerprint: Option<Fingerprint>): seq<OutLine> {
    match fingerprint
    case Some(fp) => [FingerprintOut(Or(fp.hash, "sha-256"), fp.text), AttrOut("setup", Or(fp.setup, "active"))]
    case None => []
  }

  function Ids(ps: seq<Payload>): seq<string> {
    if ps == [] then [] else Ids(ps[..|ps| - 1]) + (match ps[|ps| - 1].id case Some(id) => [id] case None => [])
  }

  /** The lines of a section between its media line and its payloads. */
  function Preamble(b: Bundle, mid: string): seq<OutLine> {
    [FixedOut("c=IN IP4 0.0.0.0"), FixedOut("a=rtcp-mux"), AttrOut("ice-ufrag", b.ufrag), AttrOut("ice-pwd", b.pwd),
     AttrOut("ice-options", "trickle")]
    + FingerprintLines(b.fingerprint)
    + [AttrOut("mid", mid), FixedOut("a=sendrecv")]
  }

  function SectionLines(b: Bundle, c: Content): seq<OutLine> {
    if c.description.None? || c.transport.None? then []
    else
      var d := c.description.value;
      [MediaOut(Or(d.media, "audio"), Ids(d.payloads))]
      + Preamble(b, Or(c.name, "0"))
      + AllPayloadLines(d.payloads)
      + SourceLines(d.source)
      + CandidateLines(c.transport.value.candidates)
  }

  function AllSectionLines(b: Bundle, cs: seq<Content>): seq<OutLine> {
    if cs == [] then [] else AllSectionLines(b, cs[..|cs| - 1]) + SectionLines(b, cs[|cs| - 1])
  }

  function Mids(cs: seq<Content>): seq<string> {
    seq(|cs|, i requires 0 <= i < |cs| => Or(cs[i].name, "0"))
  }

  function Header(mids: seq<string>): seq<OutLine> {
    [FixedOut("v=0"), FixedOut("o=- 8770656990916039506 2 IN IP4 127.0.0.1"), FixedOut("s=-"), FixedOut("t=0 0"),
     GroupOut(mids), AttrOut("msid-semantic", " WMS")]
  }

  function SdpLines(cs: seq<Content>): seq<OutLine> {
    Header(Mids(cs)) + AllSectionLines(BundleOf(cs), cs)
  }

  function Written(cs: seq<Content>): Option<string> {
    if cs == [] then None else Some(TextOf(PrintLine, SdpLines(cs)))
  }

  lemma TextOneMore(printer: Printer, lines: seq<OutLine>, line: OutLine)
    ensures TextOf(printer, lines + [line]) == TextOf(printer, lines) + printer(line)
  {
    assert (lines + [line])[..|lines|] == lines;
  }

  // The writer pushes line after line; `lines` is what is in the string so far.

  method Push(printer: Printer, s: string, line: OutLine, ghost lines: seq<OutLine>) returns (r: string)
    requires s == TextOf(printer, lines)
    ensures r == TextOf(printer, lines + [line])
  {
    TextOneMore(printer, lines, line);
    r := s + printer(line);
  }

  method PushAll(printer: Printer, s: string, more: seq<OutLine>, ghost lines: seq<OutLine>) returns (r: string)
    requires s == TextOf(printer, lines)
    ensures r == TextOf(printer, lines + more)
  {
    r := s;
    assert lines + more[..0] == lines;
    for i := 0 to |more|
      invariant r == TextOf(printer, lines + more[..i])
    {
      r := Push(printer, r, more[i], lines + more[..i]);
      assert lines + more[..i] + [more[i]] == lines + more[..i + 1];
    }
    assert more[..|more|] == more;
  }

  lemma FeedbackLinesAt(id: string, fs: seq<Feedback>)
    ensures |FeedbackLines(id, fs)| == |fs|
    ensures forall i :: 0 <= i < |fs| ==> FeedbackLines(id, fs)[i] == RtcpFbOut(id, Or(fs[i].kind, ""), fs[i].subtype)
  {
  }

  method PushFeedback(printer: Printer, s: string, id: string, fs: seq<Feedback>, ghost lines: seq<OutLine>)
    returns (r: string)
    requires s == TextOf(printer, lines)
    ensures r == TextOf(printer, lines + FeedbackLines(id, fs))
  {
    r := s;
    ghost var more := FeedbackLines(id, fs);
    FeedbackLinesAt(id, fs);
    hide TextOf, FeedbackLines;
    assert lines + more[..0] == lines;
    for i := 0 to |fs|
      invariant r == TextOf(printer, lines + more[..i])
    {
      r := Push(printer, r, RtcpFbOut(id, Or(fs[i].kind, ""), fs[i].subtype), lines + more[..i]);
      assert lines + more[..i] + [more[i]] == lines + more[..i + 1];
    }
    assert more[..|more|] == more;
  }

  method PushPayload(printer: Printer, s: string, p: Payload, ghost lines: seq<OutLine>) returns (r: string)
    requires s == TextOf(printer, lines)
    ensures r == TextOf(printer, lines + PayloadLines(p))
  {
    var id := Or(p.id, "");
    var rtpmap := RtpmapOut(id, Or(p.name, ""), Or(p.clockrate, "90000"), p.channels);
    r := Push(printer, s, rtpmap, lines);
    var params := ParameterTexts(p.parameters);
    ghost var before := lines + [rtpmap];
    if params != [] {
      r := Push(printer, r, FmtpOut(id, params), before);
    } else {
      assert before + FmtpLines(id, params) == before;
    }
    r := PushFeedback(printer, r, id, p.feedback, before + FmtpLines(id, params));
    Associate(lines, [rtpmap], FmtpLines(id, params));
    Associate(lines, [rtpmap] + FmtpLines(id, params), FeedbackLines(id, p.feedback));
  }

  lemma Associate<T>(a: seq<T>, b: seq<T>, c: seq<T>)
    ensures a + b + c == a + (b + c)
  {
  }

  lemma PayloadLinesOneMore(ps: seq<Payload>, i: nat)
    requires i < |ps|
    ensures AllPayloadLines(ps[..i + 1]) == AllPayloadLines(ps[..i]) + PayloadLines(ps[i])
  {
    assert ps[..i + 1][..i] == ps[..i];
  }

  lemma SectionLinesOneMore(b: Bundle, cs: seq<Content>, i: nat)
    requires i < |cs|
    ensures AllSectionLines(b, cs[..i + 1]) == AllSectionLines(b, cs[..i]) + SectionLines(b, cs[i])
  {
    assert cs[..i + 1][..i] == cs[..i];
  }

  method PushPayloads(printer: Printer, s: string, ps: seq<Payload>, ghost lines: seq<OutLine>) returns (r: string)
    requires s == TextOf(printer, lines)
    ensures r == TextOf(printer, lines + AllPayloadLines(ps))
  {
    r := s;
    assert lines + AllPayloadLines(ps[..0]) == lines;
    for i := 0 to |ps|
      invariant r == TextOf(printer, lines + AllPayloadLines(ps[..i]))
    {
      ghost var before := AllPayloadLines(ps[..i]);
      r := PushPayload(printer, r, ps[i], lines + before);
      Associate(lines, before, PayloadLines(ps[i]));
      PayloadLinesOneMore(ps, i);
    }
    assert ps[..|ps|] == ps;
  }

  method PushCandidates(printer: Printer, s: string, cs: seq<Candidate>, ghost lines: seq<OutLine>) returns (r: string)
    requires s == TextOf(printer, lines)
    ensures r == TextOf(printer, lines + CandidateLines(cs))
  {
    r := s;
    assert lines + CandidateLines(cs[..0]) == lines;
    for i := 0 to |cs|
      invariant r == TextOf(printer, lines + CandidateLines(cs[..i]))
    {
      ghost var before := CandidateLines(cs[..i]);
      assert cs[..i + 1][..i] == cs[..i];
      var words := CandidateWords(cs[i]);
      if words.Some? {
        r := Push(printer, r, CandidateOut(words.value), lines + before);
      } else {
        assert lines + before + [] == lines + before;
      }
      assert lines + before + OneCandidate(cs[i]) == lines + (before + OneCandidate(cs[i]));
    }
    assert cs[..|cs|] == cs;
  }

  method PushSection(printer: Printer, s: string, b: Bundle, c: Content, ghost lines: seq<OutLine>) returns (r: string)
    requires s == TextOf(printer, lines)
    ensures r == TextOf(printer, lines + SectionLines(b, c))
  {
    r := s;
    if c.description.None? || c.transport.None? {
      assert lines + SectionLines(b, c) == lines;
      return;
    }
    var d, t := c.description.value, c.transport.value;
    var media, preamble := MediaOut(Or(d.media, "audio"), Ids(d.payloads)), Preamble(b, Or(c.name, "0"));
    var source := SourceLines(d.source);
    r := Push(printer, r, media, lines);
    r := PushAll(printer, r, preamble, lines + [media]);
    r := PushPayloads(printer, r, d.payloads, lines + [media] + preamble);
    r := PushAll(printer, r, source, lines + [media] + preamble + AllPayloadLines(d.payloads));
    ghost var before := lines + [media] + preamble + AllPayloadLines(d.payloads) + source;
    r := PushCandidates(printer, r, t.candidates, before);
    InOrder(lines, [media], preamble, AllPayloadLines(d.payloads), source, CandidateLines(t.candidates));
  }

  lemma InOrder<T>(a: seq<T>, b: seq<T>, c: seq<T>, d: seq<T>, e: seq<T>, f: seq<T>)
    ensures a + b + c + d + e + f == a + (b + c + d + e + f)
  {
  }

  method PushSections(printer: Printer, s: string, b: Bundle, cs: seq<Content>, ghost lines: seq<OutLine>)
    returns (r: string)
    requires s == TextOf(printer, lines)
    ensures r == TextOf(printer, lines + AllSectionLines(b, cs))
  {
    r := s;
    assert lines + AllSectionLines(b, cs[..0]) == lines;
    for i := 0 to |cs|
      invariant r == TextOf(printer, lines + AllSectionLines(b, cs[..i]))
    {
      ghost var before := AllSectionLines(b, cs[..i]);
      r := PushSection(printer, r, b, cs[i], lines + before);
      Associate(lines, before, SectionLines(b, cs[i]));
      SectionLinesOneMore(b, cs, i);
    }
    assert cs[..|cs|] == cs;
  }

  method ContentsToSdp(contents: seq<Content>) returns (r: Option<string>)
    ensures r == Written(contents)
  {
    if contents == [] {
      return None;
    }
    var header := Header(Mids(contents));
    assert [] + header == header;
    var s := PushAll(PrintLine, "", header, []);
    s := PushSections(PrintLine, s, BundleOf(contents), contents, header);
    r := Some(s);
  }
}
