// The yEnc decoder of the post-processor, and the round trip with the encoder
// ("Encoding Principle", yEnc draft 1.3).
module Yenc {
  import opened Common

  const LF: Byte := 10
  const CR: Byte := 13
  const ESC: Byte := 61   // '='
  const MAX_TOKEN := 8 * 1024 * 1024
  const YBEGIN: seq<Byte> := [61, 121, 98, 101, 103, 105, 110]
  const YPART: seq<Byte> := [61, 121, 112, 97, 114, 116]
  const YEND: seq<Byte> := [61, 121, 101, 110, 100]

  // Decoding either fails on a line that exceeds the scanner's buffer, or
  // yields bytes and whether a begin line was seen.
  datatype Out = TooLong | Out(bytes: seq<Byte>, saw: bool)

  datatype Result = Decoded(bytes: seq<Byte>) | NoYencData | LineTooLong

  predicate StartsWith(s: seq<Byte>, p: seq<Byte>)
  {
    |s| >= |p| && s[..|p|] == p
  }

  // The first line's length: up to the next LF or the end.
  function LineLength(b: seq<Byte>): (n: nat)
    ensures n <= |b| && LF !in b[..n] && (n < |b| ==> b[n] == LF)
  {
    if b == [] || b[0] == LF then 0
    else
      var n := LineLength(b[1..]);
      assert b[..n + 1] == [b[0]] + b[1..][..n];
      n + 1
  }

  // bytes.TrimRight(line, "\r\n"); it subsumes the CR the scanner drops.
  function Trim(s: seq<Byte>): (r: seq<Byte>)
    ensures r <= s
  {
    if s != [] && (s[|s| - 1] == CR || s[|s| - 1] == LF) then Trim(s[..|s| - 1]) else s
  }

  // byte(int(c) - d): Go's conversion keeps the low eight bits.
  function Minus(c: int, d: int): Byte
  {
    (c - d) % 256
  }

  function DecodeLine(s: seq<Byte>): (r: seq<Byte>)
  {
    if s == [] then []
    else if s[0] == ESC then
      if |s| == 1 then [] else [Minus(s[1], 64 + 42)] + DecodeLine(s[2..])
    else [Minus(s[0], 42)] + DecodeLine(s[1..])
  }

  // The two flags after a (trimmed) line, and the bytes it contributes.
  function InDataAfter(t: seq<Byte>, inData: bool): bool
  {
    if StartsWith(t, YBEGIN) || StartsWith(t, YPART) then true
    else if StartsWith(t, YEND) then false
    else inData
  }

  function Contributes(t: seq<Byte>, inData: bool): (r: seq<Byte>)
  {
    if StartsWith(t, YBEGIN) || StartsWith(t, YPART) || StartsWith(t, YEND) || !inData then [] else DecodeLine(t)
  }

  function Prepend(bytes: seq<Byte>, o: Out): (r: Out)
  {
    if o.TooLong? then o else Out(bytes + o.bytes, o.saw)
  }

  function DecodeFrom(b: seq<Byte>, inData: bool, saw: bool): (o: Out)
    decreases |b|
  {
    if b == [] then Out([], saw)
    else
      var n := LineLength(b);
      if n >= MAX_TOKEN then TooLong
      else
        var t := Trim(b[..n]);
        Prepend(Contributes(t, inData),
                DecodeFrom(if n < |b| then b[n + 1..] else [], InDataAfter(t, inData), saw || StartsWith(t, YBEGIN)))
  }

  function Decode(body: seq<Byte>): (r: Result)
  {
    match DecodeFrom(body, false, false)
    case TooLong => LineTooLong
    case Out(bytes, saw) => if saw then Decoded(bytes) else NoYencData
  }

  // ---- the imperative decoder ----

  lemma DecodeAt(line: seq<Byte>, i: nat)
    requires i < |line|
    ensures DecodeLine(line[i..]) ==
            if line[i] != ESC then [Minus(line[i], 42)] + DecodeLine(line[i + 1..])
            else if i + 1 == |line| then []
            else [Minus(line[i + 1], 64 + 42)] + DecodeLine(line[i + 2..])
  {
    assert line[i..][1..] == line[i + 1..];
    if i + 1 < |line| {
      assert line[i..][2..] == line[i + 2..];
    }
  }

  lemma DecodeNone()
    ensures DecodeLine([]) == []
  {
  }

  method DecodeYencLine(line: seq<Byte>, out: seq<Byte>) returns (r: seq<Byte>)
    ensures r == out + DecodeLine(line)
  {
    hide DecodeLine, Minus;
    r := out;
    var i := 0;
    assert line[0..] == line && line[|line|..] == [];
    DecodeNone();
    while i < |line|
      invariant 0 <= i <= |line|
      invariant out + DecodeLine(line) == r + DecodeLine(line[i..])
    {
      DecodeAt(line, i);
      var c := line[i];
      if c == ESC {
        i := i + 1;
        if i >= |line| {
          break;
        }
        r := r + [Minus(line[i], 64 + 42)];
      } else {
        r := r + [Minus(c, 42)];
      }
      i := i + 1;
    }
  }

  lemma DecodeNext(body: seq<Byte>, pos: nat, inData: bool, saw: bool)
    requires pos < |body|
    ensures var n := LineLength(body[pos..]);
      DecodeFrom(body[pos..], inData, saw) ==
      if n >= MAX_TOKEN then TooLong
      else
        var t := Trim(body[pos..pos + n]);
        var next := if pos + n < |body| then pos + n + 1 else |body|;
        Prepend(Contributes(t, inData), DecodeFrom(body[next..], InDataAfter(t, inData), saw || StartsWith(t, YBEGIN)))
  {
    hide LineLength, Trim, Contributes, InDataAfter, StartsWith, Prepend;
    var n := LineLength(body[pos..]);
    assert body[pos..][..n] == body[pos..pos + n];
    if pos + n < |body| {
      assert body[pos..][n + 1..] == body[pos + n + 1..];
    }
  }

  method DecodeYenc(body: seq<Byte>) returns (r: Result)
    ensures r == Decode(body)
  {
    hide DecodeFrom, DecodeLine, LineLength, Trim, StartsWith;
    var out: seq<Byte> := [];
    var inData, sawBegin := false, false;
    var pos := 0;
    assert body[0..] == body;
    assert forall o: Out :: Prepend([], o) == o;
    while pos < |body|
      invariant 0 <= pos <= |body|
      invariant DecodeFrom(body, false, false) == Prepend(out, DecodeFrom(body[pos..], inData, sawBegin))
    {
      DecodeNext(body, pos, inData, sawBegin);
      var n := LineLength(body[pos..]);
      if n >= MAX_TOKEN {
        return LineTooLong;
      }
      var t := Trim(body[pos..pos + n]);
      pos := if pos + n < |body| then pos + n + 1 else |body|;
      PrependTwice(out, Contributes(t, inData),
                   DecodeFrom(body[pos..], InDataAfter(t, inData), sawBegin || StartsWith(t, YBEGIN)));
      hide Prepend;
      if StartsWith(t, YBEGIN) {
        sawBegin := true;
        inData := true;
      } else if StartsWith(t, YPART) {
        inData := true;
      } else if StartsWith(t, YEND) {
        inData := false;
      } else if inData {
        out := DecodeYencLine(t, out);
      }
      assert forall s: seq<Byte> :: s + [] == s;
    }
    assert body[pos..] == [];
    NothingLeft(inData, sawBegin);
    if !sawBegin {
      return NoYencData;
    }
    return Decoded(out);
  }

  lemma NothingLeft(inData: bool, saw: bool)
    ensures DecodeFrom([], inData, saw) == Out([], saw)
  {
  }

  lemma PrependTwice(a: seq<Byte>, b: seq<Byte>, o: Out)
    ensures Prepend(a, Prepend(b, o)) == Prepend(a + b, o)
  {
    if o.Out? {
      assert a + (b + o.bytes) == (a + b) + o.bytes;
    }
  }

  // ---- the encoder ----

  function EncodeByte(c: Byte): (r: seq<Byte>)
    ensures 1 <= |r| <= 2
  {
    var e: Byte := (c + 42) % 256;
    if e == 0 || e == CR || e == LF || e == ESC then [ESC, (e + 64) % 256] else [e]
  }

  function EncodeChunk(s: seq<Byte>): (r: seq<Byte>)
  {
    if s == [] then [] else EncodeByte(s[0]) + EncodeChunk(s[1..])
  }

  function Concat(chunks: seq<seq<Byte>>): (r: seq<Byte>)
  {
    if chunks == [] then [] else chunks[0] + Concat(chunks[1..])
  }

  // The lines, each followed by the line ending.
  function Terminated(lines: seq<seq<Byte>>, eol: seq<Byte>): (r: seq<Byte>)
  {
    if lines == [] then [] else lines[0] + eol + Terminated(lines[1..], eol)
  }

  function Encoded(chunks: seq<seq<Byte>>): (r: seq<seq<Byte>>)
  {
    seq(|chunks|, i requires 0 <= i < |chunks| => EncodeChunk(chunks[i]))
  }

  predicate IsEol(eol: seq<Byte>)
  {
    eol == [LF] || eol == [CR, LF]
  }

  // The line, with its CR if any, fits the scanner's buffer.
  predicate Fits(line: seq<Byte>, eol: seq<Byte>)
  {
    |line| + |eol| - 1 < MAX_TOKEN
  }

  // A line around the data that neither begins nor continues it.
  predicate IsJunk(line: seq<Byte>)
  {
    LF !in line && !StartsWith(line, YBEGIN) && !StartsWith(line, YPART)
  }

  // ---- one line at a time ----

  lemma {:induction false} LineLengthOf(line: seq<Byte>, rest: seq<Byte>)
    requires LF !in line && rest != [] && rest[0] == LF
    ensures LineLength(line + rest) == |line|
  {
    if line == [] {
      assert line + rest == rest;
    } else {
      assert (line + rest)[1..] == line[1..] + rest;
      LineLengthOf(line[1..], rest);
    }
  }

  lemma {:induction false} TrimKeepsPrefix(s: seq<Byte>, p: seq<Byte>)
    requires p != [] && CR !in p && LF !in p
    ensures StartsWith(Trim(s), p) <==> StartsWith(s, p)
  {
    if s != [] && (s[|s| - 1] == CR || s[|s| - 1] == LF) {
      TrimKeepsPrefix(s[..|s| - 1], p);
      if StartsWith(s, p) {
        assert p[|p| - 1] == s[|p| - 1];
        assert s[..|s| - 1][..|p|] == s[..|p|];
      }
      if StartsWith(s[..|s| - 1], p) {
        assert s[..|s| - 1][..|p|] == s[..|p|];
      }
    }
  }

  // Decoding a stream that starts with a terminated line.
  lemma FirstLine(line: seq<Byte>, eol: seq<Byte>, rest: seq<Byte>, inData: bool, saw: bool)
    requires LF !in line && IsEol(eol)
    ensures DecodeFrom(line + eol + rest, inData, saw) ==
            if !Fits(line, eol) then TooLong
            else Prepend(Contributes(Trim(line), inData),
                         DecodeFrom(rest, InDataAfter(Trim(line), inData), saw || StartsWith(line, YBEGIN)))
  {
    TrimKeepsPrefix(line, YBEGIN);
    TrimCr(line);
    hide Contributes, InDataAfter, StartsWith, Prepend, Trim, LineLength;
    var raw := line + eol[..|eol| - 1];
    var b := line + eol + rest;
    assert b == raw + ([LF] + rest);
    LineLengthOf(raw, [LF] + rest);
    assert b[..|raw|] == raw && b[|raw| + 1..] == rest;
    assert raw == if eol == [LF] then line else line + [CR];
  }

  lemma TrimCr(line: seq<Byte>)
    ensures Trim(line + [CR]) == Trim(line)
  {
    assert (line + [CR])[..|line|] == line;
  }

  // ---- what bytes and lines mean ----

  // Bytes other than '=' lose 42, wrapping round...
  lemma {:induction false} PlainBytes(s: seq<Byte>)
    requires 61 !in s
    ensures |DecodeLine(s)| == |s| && forall i :: 0 <= i < |s| ==> DecodeLine(s)[i] == (s[i] as int + 214) % 256
  {
    if s != [] {
      assert s[0] in s;
      PlainBytes(s[1..]);
    }
  }

  // ...a byte after '=' loses another 64, and '=' at the end is dropped.
  lemma EscapedByte(s: seq<Byte>, c: Byte, rest: seq<Byte>)
    requires 61 !in s
    ensures DecodeLine(s + ([61, c] + rest)) == DecodeLine(s) + ([(c as int + 150) % 256] + DecodeLine(rest))
    ensures DecodeLine(s + [61]) == DecodeLine(s)
  {
    var t := [61, c] + rest;
    assert t[2..] == rest && DecodeLine(t) == [(c as int + 150) % 256] + DecodeLine(rest);
    hide DecodeLine;
    PlainThen(s, t);
    PlainThen(s, [61]);
    OnlyEscape();
  }

  lemma OnlyEscape()
    ensures DecodeLine([61]) == []
  {
  }

  lemma {:induction false} PlainThen(s: seq<Byte>, t: seq<Byte>)
    requires 61 !in s
    ensures DecodeLine(s + t) == DecodeLine(s) + DecodeLine(t)
  {
    if s == [] {
      assert s + t == t;
    } else {
      assert s[0] in s && (s + t)[1..] == s[1..] + t;
      PlainThen(s[1..], t);
    }
  }

  // Trimming takes all CR and LF off the end and nothing else.
  lemma {:induction false} TrimMeans(s: seq<Byte>)
    ensures Trim(s) <= s && (Trim(s) != [] ==> Trim(s)[|Trim(s)| - 1] != 13 && Trim(s)[|Trim(s)| - 1] != 10)
    ensures forall i :: |Trim(s)| <= i < |s| ==> s[i] == 13 || s[i] == 10
  {
    if s != [] && (s[|s| - 1] == CR || s[|s| - 1] == LF) {
      TrimMeans(s[..|s| - 1]);
    }
  }

  // "=ybegin" and "=ypart" start data, "=yend" ends it, and none of the three is data.
  lemma ControlLines(t: seq<Byte>, inData: bool)
    ensures var begins := |t| >= 7 && t[..7] == [61, 121, 98, 101, 103, 105, 110];
      var parts := |t| >= 6 && t[..6] == [61, 121, 112, 97, 114, 116];
      var ends := |t| >= 5 && t[..5] == [61, 121, 101, 110, 100];
      && InDataAfter(t, inData) == (begins || parts || (inData && !ends))
      && Contributes(t, inData) == if begins || parts || ends || !inData then [] else DecodeLine(t)
  {
    if |t| >= 5 {
      assert |t| >= 7 ==> t[..7][2] == t[2];
      assert |t| >= 6 ==> t[..6][2] == t[2];
      assert t[..5][2] == t[2];
    }
  }

  // The scanner's buffer holds lines, their ending included, of up to 8 MiB.
  lemma FitsMeans(line: seq<Byte>, eol: seq<Byte>)
    ensures Fits(line, eol) <==> |line| + |eol| <= 8_388_608
  {
  }

  // ---- encoded lines ----

  // Encoded data holds no line break, and a leading escape is never followed
  // by 'y', so no data line can be taken for a control line.
  lemma {:induction false} EncodedIsPlain(s: seq<Byte>)
    ensures var e := EncodeChunk(s);
      && LF !in e && CR !in e && Trim(e) == e
      && !StartsWith(e, YBEGIN) && !StartsWith(e, YPART) && !StartsWith(e, YEND)
  {
    NoBreaks(s);
    var e := EncodeChunk(s);
    if e != [] && e[0] == ESC {
      assert EncodeByte(s[0])[0] == ESC && |EncodeByte(s[0])| == 2;
      assert e[1] == EncodeByte(s[0])[1] != 121;
      assert YBEGIN[1] == YPART[1] == YEND[1] == 121;
      assert forall p :: StartsWith(e, p) && |p| > 1 ==> e[..|p|][1] == e[1];
    }
  }

  lemma {:induction false} NoBreaks(s: seq<Byte>)
    ensures LF !in EncodeChunk(s) && CR !in EncodeChunk(s)
  {
    if s != [] {
      NoBreaks(s[1..]);
    }
  }

  lemma {:induction false} DecodeInvertsEncode(s: seq<Byte>)
    ensures DecodeLine(EncodeChunk(s)) == s
  {
    if s != [] {
      var h, t := EncodeByte(s[0]), EncodeChunk(s[1..]);
      DecodeInvertsEncode(s[1..]);
      if |h| == 2 {
        assert (h + t)[2..] == t;
      } else {
        assert (h + t)[1..] == t;
      }
      assert DecodeLine(h + t) == [s[0]] + DecodeLine(t);
    }
  }

  // ---- blocks of lines ----

  predicate AllFit(lines: seq<seq<Byte>>, eol: seq<Byte>)
  {
    forall i :: 0 <= i < |lines| ==> Fits(lines[i], eol)
  }

  lemma FitHead(lines: seq<seq<Byte>>, eol: seq<Byte>)
    requires lines != []
    ensures AllFit(lines, eol) <==> Fits(lines[0], eol) && AllFit(lines[1..], eol)
  {
    assert lines == [lines[0]] + lines[1..];
  }

  lemma JunkLine(line: seq<Byte>)
    requires IsJunk(line)
    ensures Contributes(Trim(line), false) == [] && !InDataAfter(Trim(line), false) && !StartsWith(line, YBEGIN)
  {
    TrimKeepsPrefix(line, YBEGIN);
    TrimKeepsPrefix(line, YPART);
  }

  lemma DataLine(chunk: seq<Byte>)
    ensures var e := EncodeChunk(chunk);
      LF !in e && Contributes(Trim(e), true) == chunk && InDataAfter(Trim(e), true) && !StartsWith(e, YBEGIN)
  {
    EncodedIsPlain(chunk);
    DecodeInvertsEncode(chunk);
  }

  lemma PrependNothing(o: Out)
    ensures Prepend([], o) == o
  {
  }

  lemma {:induction false} JunkLines(lines: seq<seq<Byte>>, eol: seq<Byte>, rest: seq<Byte>, saw: bool)
    requires IsEol(eol) && forall i :: 0 <= i < |lines| ==> IsJunk(lines[i])
    ensures DecodeFrom(Terminated(lines, eol) + rest, false, saw) ==
            if AllFit(lines, eol) then DecodeFrom(rest, false, saw) else TooLong
  {
    hide DecodeFrom, Contributes, InDataAfter, StartsWith, Trim, Fits, IsEol;
    if lines == [] {
      assert Terminated(lines, eol) + rest == rest;
    } else {
      var tail := Terminated(lines[1..], eol) + rest;
      assert Terminated(lines, eol) + rest == lines[0] + eol + tail;
      JunkLine(lines[0]);
      FirstLine(lines[0], eol, tail, false, saw);
      PrependNothing(DecodeFrom(tail, false, saw));
      JunkLines(lines[1..], eol, rest, saw);
      FitHead(lines, eol);
    }
  }

  lemma {:induction false} DataLines(chunks: seq<seq<Byte>>, eol: seq<Byte>, rest: seq<Byte>, saw: bool)
    requires IsEol(eol)
    ensures DecodeFrom(Terminated(Encoded(chunks), eol) + rest, true, saw) ==
            if AllFit(Encoded(chunks), eol) then Prepend(Concat(chunks), DecodeFrom(rest, true, saw)) else TooLong
  {
    hide DecodeFrom, Contributes, InDataAfter, StartsWith, Trim, Fits, IsEol, EncodeChunk;
    var lines := Encoded(chunks);
    if chunks == [] {
      assert Terminated(lines, eol) + rest == rest;
      PrependNothing(DecodeFrom(rest, true, saw));
    } else {
      var tail := Terminated(lines[1..], eol) + rest;
      assert Terminated(lines, eol) + rest == lines[0] + eol + tail;
      assert lines[1..] == Encoded(chunks[1..]);
      DataLine(chunks[0]);
      FirstLine(lines[0], eol, tail, true, saw);
      DataLines(chunks[1..], eol, rest, saw);
      PrependTwice(chunks[0], Concat(chunks[1..]), DecodeFrom(rest, true, saw));
      FitHead(lines, eol);
    }
  }

  predicate IsPartLine(line: seq<Byte>)
  {
    LF !in line && StartsWith(line, YPART)
  }

  lemma PartLine(line: seq<Byte>)
    requires IsPartLine(line)
    ensures Contributes(Trim(line), true) == [] && InDataAfter(Trim(line), true)
  {
    TrimKeepsPrefix(line, YPART);
  }

  lemma {:induction false} PartLines(lines: seq<seq<Byte>>, eol: seq<Byte>, rest: seq<Byte>)
    requires IsEol(eol) && forall i :: 0 <= i < |lines| ==> IsPartLine(lines[i])
    ensures DecodeFrom(Terminated(lines, eol) + rest, true, true) ==
            if AllFit(lines, eol) then DecodeFrom(rest, true, true) else TooLong
  {
    hide DecodeFrom, Contributes, InDataAfter, StartsWith, Trim, Fits, IsEol;
    if lines == [] {
      assert Terminated(lines, eol) + rest == rest;
    } else {
      var tail := Terminated(lines[1..], eol) + rest;
      assert Terminated(lines, eol) + rest == lines[0] + eol + tail;
      PartLine(lines[0]);
      FirstLine(lines[0], eol, tail, true, true);
      PrependNothing(DecodeFrom(tail, true, true));
      PartLines(lines[1..], eol, rest);
      FitHead(lines, eol);
    }
  }

  // A stream of lines is refused exactly when a line does not fit or none of
  // them is a begin line, whatever else it holds.
  lemma NeedsBeginLine(lines: seq<seq<Byte>>, eol: seq<Byte>)
    requires IsEol(eol) && forall i :: 0 <= i < |lines| ==> 10 !in lines[i]
    ensures Decode(Terminated(lines, eol)) == LineTooLong <==>
            exists i :: 0 <= i < |lines| && |lines[i]| + |eol| > 8_388_608
    ensures Decode(Terminated(lines, eol)).Decoded? <==>
            && (forall i :: 0 <= i < |lines| ==> |lines[i]| + |eol| <= 8_388_608)
            && exists i :: 0 <= i < |lines| && |lines[i]| >= 7 && lines[i][..7] == [61, 121, 98, 101, 103, 105, 110]
  {
    BeginSeen(lines, eol, false, false);
  }

  lemma {:induction false} BeginSeen(lines: seq<seq<Byte>>, eol: seq<Byte>, inData: bool, saw: bool)
    requires IsEol(eol) && forall i :: 0 <= i < |lines| ==> LF !in lines[i]
    ensures var o := DecodeFrom(Terminated(lines, eol), inData, saw);
      && (o.TooLong? <==> exists i :: 0 <= i < |lines| && |lines[i]| + |eol| > 8_388_608)
      && (o.Out? ==>
            (o.saw <==> saw || exists i :: 0 <= i < |lines| && |lines[i]| >= 7
                                 && lines[i][..7] == [61, 121, 98, 101, 103, 105, 110]))
    decreases |lines|
  {
    if lines != [] {
      var rest := lines[1..];
      assert forall i :: 0 <= i < |rest| ==> rest[i] == lines[i + 1];
      assert forall i :: 1 <= i < |lines| ==> lines[i] == rest[i - 1];
      FirstLine(lines[0], eol, Terminated(rest, eol), inData, saw);
      FitsMeans(lines[0], eol);
      hide DecodeFrom, Contributes, InDataAfter, Trim, Terminated;
      UnfoldTerminated(lines, eol);
      BeginSeen(rest, eol, InDataAfter(Trim(lines[0]), inData), saw || StartsWith(lines[0], YBEGIN));
    }
  }

  lemma UnfoldTerminated(lines: seq<seq<Byte>>, eol: seq<Byte>)
    requires lines != []
    ensures Terminated(lines, eol) == lines[0] + eol + Terminated(lines[1..], eol)
  {
  }

  // ---- the round trip ----

  // An article: junk lines, a begin line, part lines if any, the payload cut
  // into encoded lines at will, an end line, junk lines.
  function Article(pre: seq<seq<Byte>>, header: seq<Byte>, part: seq<seq<Byte>>, chunks: seq<seq<Byte>>,
                   trailer: seq<Byte>, post: seq<seq<Byte>>, eol: seq<Byte>): (r: seq<Byte>)
  {
    Terminated(pre, eol) + (header + eol + (Terminated(part, eol) +
      (Terminated(Encoded(chunks), eol) + (trailer + eol + Terminated(post, eol)))))
  }

  // For every payload and every way to cut it into lines, decoding gives the
  // payload back exactly when every line fits the scanner's buffer; surrounding
  // lines contribute nothing.
  lemma YencRoundTrip(pre: seq<seq<Byte>>, header: seq<Byte>, part: seq<seq<Byte>>, chunks: seq<seq<Byte>>,
                      trailer: seq<Byte>, post: seq<seq<Byte>>, eol: seq<Byte>)
    requires IsEol(eol) && LF !in header && LF !in trailer
    requires StartsWith(header, YBEGIN) && StartsWith(trailer, YEND)
    requires forall i :: 0 <= i < |pre| ==> IsJunk(pre[i])
    requires forall i :: 0 <= i < |part| ==> IsPartLine(part[i])
    requires forall i :: 0 <= i < |post| ==> IsJunk(post[i])
    ensures Decode(Article(pre, header, part, chunks, trailer, post, eol)) ==
            if AllFit(pre + [header] + (part + Encoded(chunks)) + [trailer] + post, eol) then Decoded(Concat(chunks))
            else LineTooLong
  {
    hide DecodeFrom, Contributes, InDataAfter, StartsWith, Trim, Fits, Terminated, Encoded, Concat, AllFit;
    var last := Terminated(post, eol);
    var end := trailer + eol + last;
    var data := Terminated(Encoded(chunks), eol) + end;
    var parts := Terminated(part, eol) + data;
    JunkLines(pre, eol, header + eol + parts, false);
    BeginLine(header);
    FirstLine(header, eol, parts, false, false);
    PrependNothing(DecodeFrom(parts, true, true));
    PartLines(part, eol, data);
    DataLines(chunks, eol, end, true);
    EndLine(trailer);
    FirstLine(trailer, eol, last, true, true);
    assert last + [] == last;
    JunkLines(post, eol, [], true);
    NothingLeft(false, true);
    PrependNothing(Out([], true));
    FitSplits(pre, header, part + Encoded(chunks), trailer, post, eol);
    FitConcat(part, Encoded(chunks), eol);
  }

  lemma BeginLine(header: seq<Byte>)
    requires StartsWith(header, YBEGIN)
    ensures Contributes(Trim(header), false) == [] && InDataAfter(Trim(header), false)
  {
    TrimKeepsPrefix(header, YBEGIN);
  }

  lemma EndLine(trailer: seq<Byte>)
    requires StartsWith(trailer, YEND)
    ensures !StartsWith(trailer, YBEGIN)
    ensures StartsWith(Trim(trailer), YEND)
    ensures Contributes(Trim(trailer), true) == [] && !InDataAfter(Trim(trailer), true)
  {
    TrimKeepsPrefix(trailer, YEND);
    TrimKeepsPrefix(trailer, YBEGIN);
    TrimKeepsPrefix(trailer, YPART);
    assert trailer[2] == trailer[..5][2] == 101;
    assert forall p :: StartsWith(trailer, p) && |p| > 2 ==> trailer[..|p|][2] == trailer[2];
  }

  lemma FitSplits(pre: seq<seq<Byte>>, header: seq<Byte>, lines: seq<seq<Byte>>, trailer: seq<Byte>,
                  post: seq<seq<Byte>>, eol: seq<Byte>)
    ensures AllFit(pre + [header] + lines + [trailer] + post, eol) <==>
            AllFit(pre, eol) && Fits(header, eol) && AllFit(lines, eol) && Fits(trailer, eol) && AllFit(post, eol)
  {
    FitConcat(pre, [header], eol);
    FitConcat(pre + [header], lines, eol);
    FitConcat(pre + [header] + lines, [trailer], eol);
    FitConcat(pre + [header] + lines + [trailer], post, eol);
    assert AllFit([header], eol) <==> Fits([header][0], eol);
    assert AllFit([trailer], eol) <==> Fits([trailer][0], eol);
  }

  lemma FitConcat(a: seq<seq<Byte>>, b: seq<seq<Byte>>, eol: seq<Byte>)
    ensures AllFit(a + b, eol) <==> AllFit(a, eol) && AllFit(b, eol)
  {
    if AllFit(a + b, eol) {
      forall i | 0 <= i < |a| ensures Fits(a[i], eol) {
        assert (a + b)[i] == a[i];
      }
      forall i | 0 <= i < |b| ensures Fits(b[i], eol) {
        assert (a + b)[|a| + i] == b[i];
      }
    }
  }

  // The encoder the tests use: break the line once 128 columns are filled.
  // Its output is such an article, with no line over 129 bytes, so it decodes
  // to the data.
  method EncodeYenc(header: seq<Byte>, data: seq<Byte>, trailer: seq<Byte>) returns (out: seq<Byte>)
    requires StartsWith(header, YBEGIN) && StartsWith(trailer, YEND)
    requires LF !in header && LF !in trailer && Fits(header, [CR, LF]) && Fits(trailer, [CR, LF])
    ensures Decode(out) == Decoded(data)
  {
    hide Decode, StartsWith, Terminated, Encoded, EncodeChunk, Concat;
    var eol: seq<Byte> := [CR, LF];
    var body, chunks := EncodeLines(data, eol);
    out := header + eol + body + eol + trailer + eol;
    NoLines(eol);
    assert out == Article([], header, [], chunks, trailer, [], eol);
    YencRoundTrip([], header, [], chunks, trailer, [], eol);
    assert [] + Encoded(chunks) == Encoded(chunks);
    FitSplits([], header, Encoded(chunks), trailer, [], eol);
  }

  lemma NoLines(eol: seq<Byte>)
    ensures Terminated([], eol) == []
  {
  }

  method EncodeLines(data: seq<Byte>, eol: seq<Byte>) returns (body: seq<Byte>, ghost chunks: seq<seq<Byte>>)
    requires |eol| <= 2
    ensures body + eol == Terminated(Encoded(chunks), eol)
    ensures Concat(chunks) == data && AllFit(Encoded(chunks), eol)
  {
    body, chunks := [], [];
    var col := 0;
    ghost var line: seq<Byte> := [];
    var i := 0;
    assert Encoded(chunks) == [] && AllFit(Encoded(chunks), eol) && data[..0] == [];
    hide EncodeChunk, Concat, Terminated, Encoded, AllFit, Fits;
    NoLines(eol);
    Nothing();
    hide EncodeByte;
    ghost var done := Terminated(Encoded(chunks), eol);
    while i < |data|
      invariant 0 <= i <= |data|
      invariant body == done + EncodeChunk(line) && done == Terminated(Encoded(chunks), eol)
      invariant Concat(chunks) + line == data[..i]
      invariant col == |EncodeChunk(line)| < 128
      invariant AllFit(Encoded(chunks), eol)
    {
      var e := EncodeByte(data[i]);
      OneMore(done, line, chunks, data, i);
      body := body + e;
      col := col + |e|;
      line := line + [data[i]];
      if col >= 128 {
        body := body + eol;
        col := 0;
        ShortFits(EncodeChunk(line), eol);
        AppendChunk(chunks, line, eol);
        chunks, line, done := chunks + [line], [], body;
        Nothing();
      }
      i := i + 1;
    }
    assert data[..i] == data;
    ShortFits(EncodeChunk(line), eol);
    AppendChunk(chunks, line, eol);
    chunks := chunks + [line];
  }

  lemma ShortFits(line: seq<Byte>, eol: seq<Byte>)
    requires |line| <= 129 && |eol| <= 2
    ensures Fits(line, eol)
  {
  }

  lemma OneMore(done: seq<Byte>, line: seq<Byte>, chunks: seq<seq<Byte>>, data: seq<Byte>, i: nat)
    requires i < |data| && Concat(chunks) + line == data[..i]
    ensures EncodeChunk(line + [data[i]]) == EncodeChunk(line) + EncodeByte(data[i])
    ensures done + EncodeChunk(line) + EncodeByte(data[i]) == done + EncodeChunk(line + [data[i]])
    ensures Concat(chunks) + (line + [data[i]]) == data[..i + 1]
  {
    hide EncodeChunk, EncodeByte, Concat;
    AppendByte(line, data[i]);
    assert data[..i + 1] == data[..i] + [data[i]];
  }

  lemma Nothing()
    ensures EncodeChunk([]) == [] && Concat([]) == []
  {
  }

  lemma {:induction false} AppendByte(s: seq<Byte>, c: Byte)
    ensures EncodeChunk(s + [c]) == EncodeChunk(s) + EncodeByte(c)
  {
    if s != [] {
      assert (s + [c])[1..] == s[1..] + [c];
      AppendByte(s[1..], c);
    }
  }

  lemma {:induction false} AppendLine(lines: seq<seq<Byte>>, l: seq<Byte>, eol: seq<Byte>)
    ensures Terminated(lines + [l], eol) == Terminated(lines, eol) + l + eol
  {
    if lines == [] {
      assert (lines + [l])[1..] == [] && Terminated([], eol) == [];
    } else {
      assert (lines + [l])[1..] == lines[1..] + [l];
      AppendLine(lines[1..], l, eol);
    }
  }

  lemma {:induction false} AppendPayload(chunks: seq<seq<Byte>>, c: seq<Byte>)
    ensures Concat(chunks + [c]) == Concat(chunks) + c
  {
    if chunks == [] {
      assert (chunks + [c])[1..] == [] && Concat([]) == [];
    } else {
      assert (chunks + [c])[1..] == chunks[1..] + [c];
      AppendPayload(chunks[1..], c);
    }
  }

  lemma AppendChunk(chunks: seq<seq<Byte>>, c: seq<Byte>, eol: seq<Byte>)
    ensures Concat(chunks + [c]) == Concat(chunks) + c
    ensures Terminated(Encoded(chunks + [c]), eol) == Terminated(Encoded(chunks), eol) + EncodeChunk(c) + eol
    ensures AllFit(Encoded(chunks), eol) && Fits(EncodeChunk(c), eol) ==> AllFit(Encoded(chunks + [c]), eol)
  {
    hide EncodeChunk, Terminated, Concat, Fits;
    AppendPayload(chunks, c);
    AppendLine(Encoded(chunks), EncodeChunk(c), eol);
    assert Encoded(chunks + [c]) == Encoded(chunks) + [EncodeChunk(c)];
  }
}
