/** Reading back each kind of line the writer produces. */
module SdpReadBack {
  import opened Wrappers
  import opened Text
  import opened Words
  import opened Sdp
  import opened SdpParsed

  // ---- the text and its lines --------------------------------------------

  function Shown(lines: seq<OutLine>): (r: seq<string>)
    ensures |r| == |lines| && forall i :: 0 <= i < |lines| ==> r[i] == Show(lines[i]) + "\r"
  {
    seq(|lines|, i requires 0 <= i < |lines| => Show(lines[i]) + "\r")
  }

  /** The last of the parts grows by `line`, and an empty part comes after it. */
  function Closed(parts: seq<string>, line: string): seq<string>
    requires parts != []
  {
    parts[..|parts| - 1] + [parts[|parts| - 1] + line, ""]
  }

  lemma ClosedAfter(head: string, parts: seq<string>, line: string)
    requires parts != []
    ensures Closed([head] + parts, line) == [head] + Closed(parts, line)
  {
    var all := [head] + parts;
    assert all[|all| - 1] == parts[|parts| - 1];
    assert all[..|all| - 1] == [head] + parts[..|parts| - 1];
  }

  lemma {:induction false} SplitOneMore(t: string, line: string)
    requires '\n' !in line
    ensures Split(t + (line + ['\n']), '\n') == Closed(Split(t, '\n'), line)
    decreases |t|
  {
    hide Split, Closed;
    var n := Before(t, '\n');
    if n == |t| {
      assert '\n' !in t by {
        assert t[..n] == t;
      }
      SplitNone(t, '\n');
      LastSplit(t, line);
    } else {
      var head, rest := t[..n], t[n + 1..];
      SplitOneMore(rest, line);
      assert t == head + ['\n'] + rest;
      assert t + (line + ['\n']) == head + ['\n'] + (rest + (line + ['\n']));
      SplitAt(head, '\n', rest);
      SplitAt(head, '\n', rest + (line + ['\n']));
      ClosedAfter(head, Split(rest, '\n'), line);
    }
  }

  lemma LastSplit(t: string, line: string)
    requires '\n' !in line && '\n' !in t
    ensures Split(t + (line + ['\n']), '\n') == Closed([t], line)
  {
    var last := t + line;
    assert t + (line + ['\n']) == last + ['\n'] + "";
    SplitAt(last, '\n', "");
    SplitNone("", '\n');
  }

  ghost predicate Tidy(lines: seq<OutLine>) {
    forall i :: 0 <= i < |lines| ==> OnOneLine(Show(lines[i]))
  }

  lemma {:induction false} SplitText(lines: seq<OutLine>)
    requires Tidy(lines)
    ensures Split(TextOf(PrintLine, lines), '\n') == Shown(lines) + [""]
  {
    hide Show, Split;
    if lines == [] {
      SplitNone("", '\n');
    } else {
      var front, last := lines[..|lines| - 1], lines[|lines| - 1];
      SplitText(front);
      var line := Show(last) + "\r";
      assert OnOneLine(Show(last));
      assert PrintLine(last) == line + ['\n'];
      SplitOneMore(TextOf(PrintLine, front), line);
      var parts := Shown(front) + [""];
      assert parts[..|parts| - 1] == Shown(front) && parts[|parts| - 1] == "";
      assert "" + line == line;
      assert Shown(lines) + [""] == Shown(front) + [line, ""];
    }
  }

  lemma LinesOfText(lines: seq<OutLine>)
    requires Tidy(lines)
    ensures Lines(TextOf(PrintLine, lines)) == Shown(lines)
  {
    SplitText(lines);
    assert (Shown(lines) + [""])[..|lines|] == Shown(lines);
  }

  // ---- what each line means ----------------------------------------------

  function Meaning(l: OutLine): Line {
    ReadLine(Show(l) + "\r")
  }

  lemma FieldIsTrimmed(s: string)
    requires Field(s)
    ensures TrimEnd(s) == s
  {
  }

  lemma TrimmedAttrLine(key: string, value: string)
    ensures TrimEnd(AttrLine(key, value) + "\r") == AttrLine(key, TrimEnd(value))
  {
    TrimEndOfSpaced(AttrLine(key, value), '\r');
    TrimEndAfter("a=" + key + ":", value);
  }

  lemma AttributeRead(key: string, value: string)
    requires ':' !in key
    ensures ReadTrimmed(AttrLine(key, value)) == AttributeLine(key, value)
  {
    var line := AttrLine(key, value);
    assert line[0] == 'a' && line[1] == '=';
    var attribute := key + [':'] + value;
    assert line[2..] == attribute;
    assert !("m=" <= line) && "a=" <= line;
    SplitOnceAt(key, ':', value);
  }

  lemma ReadAttrLine(key: string, value: string)
    requires ':' !in key
    ensures ReadLine(AttrLine(key, value) + "\r") == AttributeLine(key, TrimEnd(value))
  {
    TrimmedAttrLine(key, value);
    AttributeRead(key, TrimEnd(value));
  }

  lemma ReadAttr(key: string, value: string)
    requires ':' !in key && Field(value)
    ensures Meaning(AttrOut(key, value)) == AttributeLine(key, value)
  {
    hide ReadTrimmed, AttributeLine, TrimEnd, AttrLine;
    FieldIsTrimmed(value);
    ReadAttrLine(key, value);
  }

  /** The keys the parser looks for are told apart. */
  lemma SimpleKeys(value: string)
    ensures AttributeLine("mid", value) == Mid(value)
    ensures AttributeLine("ice-ufrag", value) == Ufrag(value)
    ensures AttributeLine("ice-pwd", value) == Pwd(value)
    ensures AttributeLine("setup", value) == Setup(value)
    ensures AttributeLine("candidate", value) == CandidateOf(value)
  {
    assert |"mid"| == 3 && |"ice-ufrag"| == 9 && |"ice-pwd"| == 7 && |"setup"| == 5 && |"candidate"| == 9;
    assert "ice-ufrag"[0] != "candidate"[0];
  }

  lemma EntryKeys(id: string, rest: string)
    requires ' ' !in id
    ensures AttributeLine("fingerprint", id + " " + rest) == FingerprintOf(id, rest)
    ensures AttributeLine("rtpmap", id + " " + rest) == Rtpmap(id, rest)
    ensures AttributeLine("fmtp", id + " " + rest) == Fmtp(id, rest)
    ensures AttributeLine("rtcp-fb", id + " " + rest) == RtcpFb(id, rest)
    ensures AttributeLine("ssrc", id + " " + rest) == Ssrc(id, rest)
  {
    assert id + " " + rest == id + [' '] + rest;
    SplitOnceAt(id, ' ', rest);
    assert |"fingerprint"| == 11 && |"rtpmap"| == 6 && |"fmtp"| == 4 && |"rtcp-fb"| == 7 && |"ssrc"| == 4;
    assert "rtcp-fb"[0] != "ice-pwd"[0] && "fmtp"[0] != "ssrc"[0];
  }

  lemma OtherKeys(value: string)
    ensures AttributeLine("group", value) == OtherLine
    ensures AttributeLine("ice-options", value) == OtherLine
    ensures AttributeLine("msid-semantic", value) == OtherLine
    ensures AttributeLine("rtcp-mux", value) == OtherLine
    ensures AttributeLine("sendrecv", value) == OtherLine
  {
    assert |"group"| == 5 && "group"[0] != "setup"[0];
    assert |"ice-options"| == 11 && "ice-options"[0] != "fingerprint"[0];
    assert |"msid-semantic"| == 13 && |"rtcp-mux"| == 8 && |"sendrecv"| == 8;
  }

  /** An entry line: the id stands before the first space, the rest is trimmed. */
  lemma ReadEntry(key: string, id: string, rest: string)
    requires ':' !in key && TrimEnd(rest) != ""
    ensures ReadLine(AttrLine(key, id + " " + rest) + "\r") == AttributeLine(key, id + " " + TrimEnd(rest))
  {
    ReadAttrLine(key, id + " " + rest);
    TrimEndAfter(id + " ", rest);
  }

  lemma ReadRtpmap(id: string, name: string, clockrate: string, channels: Option<string>)
    requires ' ' !in id && TrimEnd(RtpmapValue(name, clockrate, channels)) != ""
    ensures Meaning(RtpmapOut(id, name, clockrate, channels)) == Rtpmap(id, TrimEnd(RtpmapValue(name, clockrate, channels)))
  {
    hide ReadTrimmed, AttributeLine, RtpmapValue, TrimEnd;
    ReadEntry("rtpmap", id, RtpmapValue(name, clockrate, channels));
    EntryKeys(id, TrimEnd(RtpmapValue(name, clockrate, channels)));
  }

  lemma ReadFmtp(id: string, params: seq<string>)
    requires ' ' !in id && Ends(Join(params, ";"))
    ensures Meaning(FmtpOut(id, params)) == Fmtp(id, Join(params, ";"))
  {
    hide ReadTrimmed, AttributeLine;
    ReadEntry("fmtp", id, Join(params, ";"));
    EntryKeys(id, Join(params, ";"));
  }

  lemma ReadRtcpFb(id: string, kind: string, subtype: Option<string>)
    requires ' ' !in id && Ends(kind + Suffix(" ", subtype))
    ensures Meaning(RtcpFbOut(id, kind, subtype)) == RtcpFb(id, kind + Suffix(" ", subtype))
  {
    hide ReadTrimmed, AttributeLine;
    ReadEntry("rtcp-fb", id, kind + Suffix(" ", subtype));
    EntryKeys(id, kind + Suffix(" ", subtype));
  }

  lemma ReadFingerprint(hash: string, value: string)
    requires ' ' !in hash && Ends(value)
    ensures Meaning(FingerprintOut(hash, value)) == FingerprintOf(hash, value)
  {
    hide ReadTrimmed, AttributeLine;
    ReadEntry("fingerprint", hash, value);
    EntryKeys(hash, value);
  }

  lemma ReadSsrc(ssrc: string, cname: string)
    requires ' ' !in ssrc && Field(cname)
    ensures Meaning(SsrcOut(ssrc, cname)) == Ssrc(ssrc, "cname:" + cname)
  {
    hide ReadTrimmed, AttributeLine;
    assert Ends("cname:" + cname);
    ReadEntry("ssrc", ssrc, "cname:" + cname);
    EntryKeys(ssrc, "cname:" + cname);
  }

  lemma ReadCandidate(words: seq<string>)
    requires AllWords(words) && words != []
    ensures Meaning(CandidateOut(words)) == CandidateOf(Join(words, " "))
  {
    hide ReadTrimmed, AttributeLine, TrimEnd, AttrLine, AllWords, Join;
    JoinedWordsEnd(words);
    ReadAttrLine("candidate", Join(words, " "));
    SimpleKeys(Join(words, " "));
  }

  lemma FirstWordOfMedia(kind: string, rest: string)
    requires IsKind(kind)
    ensures WordsOf(kind + " " + ("9 " + rest)) != []
    ensures WordsOf(kind + " " + ("9 " + rest))[0] == if kind == "" then "9" else kind
  {
    FirstWord("9", rest);
    assert "9" + " " + rest == "9 " + rest;
    if kind == "" {
      WordsOfSpaceThen("9 " + rest);
      assert kind + " " + ("9 " + rest) == " " + ("9 " + rest);
    } else {
      FirstWord(kind, "9 " + rest);
    }
  }

  lemma TrimmedMedia(kind: string, ids: seq<string>) returns (more: string)
    ensures TrimEnd(Show(MediaOut(kind, ids)) + "\r") == "m=" + (kind + " " + ("9 " + more))
  {
    hide TrimEnd;
    var proto, joined := "UDP/TLS/RTP/SAVPF", " " + Join(ids, " ");
    more := proto + TrimEnd(joined);
    TrimEndOfSpaced(Show(MediaOut(kind, ids)), '\r');
    TrimEndAfter(proto, joined);
    TrimEndAfter("9 ", proto + joined);
    TrimEndAfter(kind + " ", "9 " + (proto + joined));
    TrimEndAfter("m=", kind + " " + ("9 " + (proto + joined)));
  }

  lemma MediaRead(rest: string)
    requires WordsOf(rest) != []
    ensures ReadTrimmed("m=" + rest) == MediaLine(WordsOf(rest)[0])
  {
    hide WordsOf;
    assert ("m=" + rest)[2..] == rest;
  }

  /** A media line gives back the kind; without one, the port is taken for it. */
  lemma ReadMedia(kind: string, ids: seq<string>)
    requires IsKind(kind)
    ensures Meaning(MediaOut(kind, ids)) == MediaLine(if kind == "" then "9" else kind)
  {
    hide TrimEnd, Show, ReadTrimmed, WordsOf;
    var more := TrimmedMedia(kind, ids);
    FirstWordOfMedia(kind, more);
    MediaRead(kind + " " + ("9 " + more));
  }

  lemma ReadNoAttribute(text: string)
    requires text != "" && Ends(text) && text[0] != 'm' && text[0] != 'a'
    ensures Meaning(FixedOut(text)) == OtherLine
  {
    TrimEndOfSpaced(text, '\r');
  }

  lemma ReadFlag(flag: string)
    requires ':' !in flag && Ends(flag)
    ensures Meaning(FixedOut("a=" + flag)) == AttributeLine(flag, "")
  {
    hide AttributeLine, Before;
    TrimEndOfSpaced("a=" + flag, '\r');
    assert ("a=" + flag)[0] == 'a' && ("a=" + flag)[2..] == flag;
    SplitOnceNone(flag, ':');
  }

  lemma ReadMux()
    ensures Meaning(FixedOut("a=rtcp-mux")) == OtherLine
    ensures Meaning(FixedOut("a=sendrecv")) == OtherLine
  {
    hide ReadLine, AttributeLine;
    ReadFlag("rtcp-mux");
    assert "a=" + "rtcp-mux" == "a=rtcp-mux";
    ReadFlag("sendrecv");
    assert "a=" + "sendrecv" == "a=sendrecv";
    OtherKeys("");
  }

  lemma ReadOthers()
    ensures Meaning(FixedOut("c=IN IP4 0.0.0.0")) == OtherLine
    ensures Meaning(FixedOut("a=rtcp-mux")) == OtherLine
    ensures Meaning(FixedOut("a=sendrecv")) == OtherLine
    ensures Meaning(AttrOut("ice-options", "trickle")) == OtherLine
  {
    hide Meaning, AttributeLine;
    ReadNoAttribute("c=IN IP4 0.0.0.0");
    ReadMux();
    ReadAttr("ice-options", "trickle");
    OtherKeys("trickle");
  }

  lemma ReadPlainHeader()
    ensures Meaning(FixedOut("v=0")) == OtherLine
    ensures Meaning(FixedOut("o=- 8770656990916039506 2 IN IP4 127.0.0.1")) == OtherLine
    ensures Meaning(FixedOut("s=-")) == OtherLine
    ensures Meaning(FixedOut("t=0 0")) == OtherLine
  {
    hide Meaning;
    ReadNoAttribute("v=0");
    ReadNoAttribute("o=- 8770656990916039506 2 IN IP4 127.0.0.1");
    ReadNoAttribute("s=-");
    ReadNoAttribute("t=0 0");
  }

  lemma ReadGroup(mids: seq<string>)
    ensures Meaning(GroupOut(mids)) == OtherLine
    ensures Meaning(AttrOut("msid-semantic", " WMS")) == OtherLine
  {
    hide ReadTrimmed, AttributeLine, TrimEnd;
    ReadAttrLine("group", "BUNDLE " + Join(mids, " "));
    OtherKeys(TrimEnd("BUNDLE " + Join(mids, " ")));
    ReadAttrLine("msid-semantic", " WMS");
    OtherKeys(TrimEnd(" WMS"));
  }

  lemma ReadHeader(mids: seq<string>)
    ensures forall i :: 0 <= i < |Header(mids)| ==> !Meaning(Header(mids)[i]).MediaLine?
  {
    hide Meaning;
    ReadPlainHeader();
    ReadGroup(mids);
  }
}
