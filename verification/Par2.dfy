// The PAR2 packet walker ("Packet Header" and "File Description packet",
// Parity Volume Set Specification 2.0).
module Par2 {
  import opened Common

  const MAGIC: seq<Byte> := [80, 65, 82, 50, 0, 80, 75, 84]  // PAR2\0PKT
  // PAR 2.0\0FileDesc
  const FILE_DESC: seq<Byte> := [80, 65, 82, 32, 50, 46, 48, 0, 70, 105, 108, 101, 68, 101, 115, 99]
  const HEADER_LEN := 64
  const NAME_OFFSET := 56
  const TWO63 := 0x8000_0000_0000_0000
  const TWO64 := 0x1_0000_0000_0000_0000

  // binary.LittleEndian.Uint64, for any number of bytes.
  function FromLE(s: seq<Byte>): (n: nat)
  {
    if s == [] then 0 else s[0] + 256 * FromLE(s[1..])
  }

  // start + int(pktLen) in 64-bit two's complement.
  function EndOf(start: nat, pktLen: nat): (end: int)
    requires start < TWO63 && pktLen < TWO64
    ensures start + pktLen < TWO63 ==> end == start + pktLen
    ensures start + pktLen >= TWO63 ==> end < start
  {
    var x := if pktLen < TWO63 then pktLen else pktLen - TWO64;
    if start + x < TWO63 then start + x else start + x - TWO64
  }

  predicate MagicAt(data: seq<Byte>, i: nat)
  {
    i + 8 <= |data| && data[i..i + 8] == MAGIC
  }

  // bytes.Index for the magic, from offset on.
  function FindMagic(data: seq<Byte>, offset: nat): (r: Option<nat>)
    requires offset <= |data|
    ensures r.Some? ==> offset <= r.value && MagicAt(data, r.value) && forall j :: offset <= j < r.value ==>
      !MagicAt(data, j)
    ensures r.None? ==> forall j :: offset <= j ==> !MagicAt(data, j)
    decreases |data| - offset
  {
    if offset + 8 > |data| then None
    else if MagicAt(data, offset) then Some(offset)
    else FindMagic(data, offset + 1)
  }

  function TrimNul(s: seq<Byte>): (r: seq<Byte>)
  {
    if s != [] && s[|s| - 1] == 0 then TrimNul(s[..|s| - 1]) else s
  }

  // parseFileDescName: empty when the body is too short.
  function FileDescName(body: seq<Byte>): (r: seq<Byte>)
  {
    if |body| <= NAME_OFFSET then [] else TrimNul(body[NAME_OFFSET..])
  }

  // The name a packet adds, if it is a File Description with one.
  function NameOf(pkt: seq<Byte>): (r: seq<Byte>)
    requires |pkt| >= HEADER_LEN
  {
    if pkt[48..64] == FILE_DESC then FileDescName(pkt[64..]) else []
  }

  function AddName(names: seq<seq<Byte>>, name: seq<Byte>): (r: seq<seq<Byte>>)
  {
    if name != [] && name !in names then names + [name] else names
  }

  // The walk ends normally, or slices outside the data.
  datatype Walk = Names(names: seq<seq<Byte>>) | OutOfRange

  function WalkFrom(data: seq<Byte>, offset: nat, names: seq<seq<Byte>>): (w: Walk)
    requires offset <= |data| < TWO63
    decreases |data| - offset
  {
    if offset + HEADER_LEN > |data| then Names(names)
    else
      var m := FindMagic(data, offset);
      if m.None? || m.value + HEADER_LEN > |data| then Names(names)
      else
        var start := m.value;
        var pktLen := LengthField(data, start);
        var end := EndOf(start, pktLen);
        if pktLen < HEADER_LEN || end > |data| then WalkFrom(data, start + 8, names)
        else if end < start + HEADER_LEN then OutOfRange
        else WalkFrom(data, end, AddName(names, NameOf(data[start..end])))
  }

  function LengthField(data: seq<Byte>, start: nat): (n: nat)
    requires start + HEADER_LEN <= |data|
    ensures n < TWO64
  {
    FromLEBound(data[start + 8..start + 16]);
    FromLE(data[start + 8..start + 16])
  }

  lemma FromLEBound(s: seq<Byte>)
    requires |s| == 8
    ensures FromLE(s) < TWO64
  {
    BoundBy(s);
    assert Pow256(8) == 256 * (256 * (256 * (256 * (256 * (256 * (256 * (256 * Pow256(0))))))));
  }

  function Pow256(n: nat): (r: nat)
    ensures r >= 1
  {
    if n == 0 then 1 else 256 * Pow256(n - 1)
  }

  lemma {:induction false} BoundBy(s: seq<Byte>)
    ensures FromLE(s) < Pow256(|s|)
  {
    if s != [] {
      BoundBy(s[1..]);
    }
  }

  datatype Parsed = Filenames(names: seq<seq<Byte>>) | NoFilenames | Crashed

  function Parse(data: seq<Byte>): (r: Parsed)
    requires |data| < TWO63
  {
    match WalkFrom(data, 0, [])
    case OutOfRange => Crashed
    case Names(names) => if names == [] then NoFilenames else Filenames(names)
  }

  // Each offset is at least one magic further than the one before.
  ghost predicate Advances(offsets: seq<nat>)
  {
    forall i :: 0 < i < |offsets| ==> offsets[i - 1] + 8 <= offsets[i]
  }

  // `offsets` are those the loop starts its iterations from.
  method ParsePar2Filenames(data: seq<Byte>) returns (r: Parsed, ghost offsets: seq<nat>)
    requires |data| < TWO63  // the length of a Go slice
    ensures r == Parse(data)
    ensures Advances(offsets) && 8 * |offsets| <= |data| + 8
  {
    hide FindMagic, NameOf, LengthField, MagicAt, EndOf;
    var names: seq<seq<Byte>> := [];
    var seen: set<seq<Byte>> := {};
    var offset := 0;
    offsets := [];
    while offset + HEADER_LEN <= |data|
      invariant 0 <= offset <= |data| && 8 * |offsets| <= offset
      invariant Advances(offsets) && Advances(offsets + [offset])
      invariant seen == set n | n in names
      invariant WalkFrom(data, 0, []) == WalkFrom(data, offset, names)
      decreases |data| - offset
    {
      offsets := offsets + [offset];
      var m := FindMagic(data, offset);
      if m.None? {
        break;
      }
      var start := m.value;
      if start + HEADER_LEN > |data| {
        break;
      }
      var pktLen := LengthField(data, start);
      var end := EndOf(start, pktLen);
      if pktLen < HEADER_LEN || end > |data| {
        offset := start + |MAGIC|;
        continue;
      }
      if end < start + HEADER_LEN {
        return Crashed, offsets;  // slice bounds out of range
      }
      var name := NameOf(data[start..end]);
      if name != [] && name !in seen {
        seen := seen + {name};
        names := names + [name];
      }
      offset := end;
    }
    if |names| == 0 {
      return NoFilenames, offsets;
    }
    return Filenames(names), offsets;
  }

  // The magics whose length field the walk reads, up to one it cannot add.
  function Examined(data: seq<Byte>, offset: nat): (r: set<nat>)
    requires offset <= |data| < TWO63
    ensures forall i :: i in r ==> offset <= i && MagicAt(data, i) && i + HEADER_LEN <= |data|
    decreases |data| - offset
  {
    if offset + HEADER_LEN > |data| then {}
    else
      var m := FindMagic(data, offset);
      if m.None? || m.value + HEADER_LEN > |data| then {}
      else
        var n := LengthField(data, m.value);
        if m.value + n >= TWO63 then {m.value}
        else {m.value} + Examined(data, if n < HEADER_LEN || m.value + n > |data| then m.value + 8 else m.value + n)
  }

  predicate Overflows(data: seq<Byte>, i: nat)
  {
    i + HEADER_LEN <= |data| && i + LengthField(data, i) >= TWO63
  }

  // The walk leaves the data exactly when it reads a length field that
  // overflows a signed 64-bit offset; on all other data every read is in bounds.
  lemma {:induction false} OutOfRangeIff(data: seq<Byte>, offset: nat, names: seq<seq<Byte>>)
    requires offset <= |data| < TWO63
    ensures WalkFrom(data, offset, names).OutOfRange? <==> exists i :: i in Examined(data, offset) && Overflows(data, i)
    decreases |data| - offset
  {
    hide FindMagic, NameOf, AddName, LengthField, MagicAt;
    var m := FindMagic(data, offset);
    if offset + HEADER_LEN <= |data| && m.Some? && m.value + HEADER_LEN <= |data| {
      var start := m.value;
      var n := LengthField(data, start);
      assert start in Examined(data, offset) && (Overflows(data, start) <==> start + n >= TWO63);
      if start + n < TWO63 {
        var resync := n < HEADER_LEN || start + n > |data|;
        var next := if resync then start + 8 else start + n;
        var names' := if resync then names else AddName(names, NameOf(data[start..start + n]));
        assert WalkFrom(data, offset, names) == WalkFrom(data, next, names');
        assert Examined(data, offset) == {start} + Examined(data, next);
        OutOfRangeIff(data, next, names');
        hide WalkFrom, Examined, Overflows;
        assert forall i :: i in Examined(data, offset) <==> i == start || i in Examined(data, next);
      }
    }
  }

  // It does happen: one header whose length field is all ones.
  lemma OverflowingPacketCrashes(rest: seq<Byte>)
    requires |rest| == 48
    ensures Parse(MAGIC + [255, 255, 255, 255, 255, 255, 255, 255] + rest) == Crashed
  {
    var ones := [255, 255, 255, 255, 255, 255, 255, 255];
    var data := MAGIC + ones + rest;
    assert data[0..8] == MAGIC && data[8..16] == ones;
    assert FindMagic(data, 0) == Some(0);
    AllOnes();
  }

  lemma AllOnes()
    ensures FromLE([255, 255, 255, 255, 255, 255, 255, 255]) == TWO64 - 1
  {
    assert FromLE([255, 255]) == 255 + 256 * FromLE([255]) == 0xFFFF by {
      assert [255, 255][1..] == [255] && [255][1..] == [];
    }
    Ones([255, 255], 0xFFFF);
    Ones([255, 255, 255, 255], 0xFFFF_FFFF);
    Ones([255, 255, 255, 255, 255, 255], 0xFFFF_FFFF_FFFF);
  }

  // Two more bytes of ones in front.
  lemma Ones(s: seq<Byte>, n: nat)
    requires FromLE(s) == n
    ensures FromLE([255, 255] + s) == 0xFFFF + 0x1_0000 * n
  {
    assert ([255, 255] + s)[1..] == [255] + s && ([255] + s)[1..] == s;
  }

  // Every name is reported once, and only non-empty ones.
  lemma {:induction false} NamesAreDistinct(data: seq<Byte>, offset: nat, names: seq<seq<Byte>>)
    requires offset <= |data| < TWO63
    requires [] !in names && forall i, j :: 0 <= i < j < |names| ==> names[i] != names[j]
    ensures WalkFrom(data, offset, names).Names? ==>
      var r := WalkFrom(data, offset, names).names;
      names <= r && [] !in r && forall i, j :: 0 <= i < j < |r| ==> r[i] != r[j]
    decreases |data| - offset
  {
    hide FindMagic, NameOf, LengthField, MagicAt;
    if offset + HEADER_LEN <= |data| {
      var m := FindMagic(data, offset);
      if m.Some? && m.value + HEADER_LEN <= |data| {
        var start := m.value;
        var end := EndOf(start, LengthField(data, start));
        if LengthField(data, start) < HEADER_LEN || end > |data| {
          NamesAreDistinct(data, start + 8, names);
        } else if end >= start + HEADER_LEN {
          NamesAreDistinct(data, end, AddName(names, NameOf(data[start..end])));
        }
      }
    }
  }

  // ---- packets and gaps ----

  predicate WellFormed(p: seq<Byte>)
  {
    |p| >= HEADER_LEN && p[..8] == MAGIC && FromLE(p[8..16]) == |p|
  }

  predicate NoMagic(gap: seq<Byte>)
  {
    forall i :: 0 <= i < |gap| ==> !MagicAt(gap, i)
  }

  // Bytes without magic, then a packet.
  datatype Item = Item(gap: seq<Byte>, pkt: seq<Byte>)

  function Joined(items: seq<Item>, tail: seq<Byte>): (r: seq<Byte>)
  {
    if items == [] then tail else items[0].gap + items[0].pkt + Joined(items[1..], tail)
  }

  predicate AllGood(items: seq<Item>)
  {
    forall i :: 0 <= i < |items| ==> NoMagic(items[i].gap) && WellFormed(items[i].pkt)
  }

  // What a reader of the specification would report: each packet's name, first
  // occurrences only.
  function Expected(items: seq<Item>, names: seq<seq<Byte>>): (r: seq<seq<Byte>>)
    requires AllGood(items)
    decreases |items|
  {
    if items == [] then names else Expected(items[1..], AddName(names, NameOf(items[0].pkt)))
  }

  // The magic has no border, so no match can start in a gap and run into the
  // packet after it.
  lemma NoStraddle(data: seq<Byte>, j: nat, g: nat)
    requires MagicAt(data, g) && j < g < j + 8
    ensures !MagicAt(data, j)
  {
    assert data[g..g + 8][0] == data[g] && data[g..g + 8][1] == data[g + 1];
    assert j + 8 <= |data| ==> data[j..j + 8][g - j] == data[g];
    assert j + 8 <= |data| && g - j == 5 ==> data[j..j + 8][6] == data[g + 1];
  }

  lemma GapIsSkipped(pre: seq<Byte>, gap: seq<Byte>, pkt: seq<Byte>, rest: seq<Byte>)
    requires NoMagic(gap) && WellFormed(pkt)
    ensures FindMagic(pre + gap + pkt + rest, |pre|) == Some(|pre| + |gap|)
  {
    var data := pre + gap + pkt + rest;
    var g := |pre| + |gap|;
    assert data[g..g + 8] == pkt[..8];
    assert MagicAt(data, g);
    forall j | |pre| <= j < g ensures !MagicAt(data, j) {
      if j + 8 <= g {
        assert data[j..j + 8] == gap[j - |pre|..j - |pre| + 8];
        assert !MagicAt(gap, j - |pre|);
      } else {
        NoStraddle(data, j, g);
      }
    }
  }

  lemma TailIsSkipped(pre: seq<Byte>, tail: seq<Byte>)
    requires NoMagic(tail)
    ensures FindMagic(pre + tail, |pre|).None?
  {
    var data := pre + tail;
    forall j | |pre| <= j ensures !MagicAt(data, j) {
      if j + 8 <= |data| {
        assert data[j..j + 8] == tail[j - |pre|..j - |pre| + 8];
        assert !MagicAt(tail, j - |pre|);
      }
    }
  }

  // Only File Description packets with more than the 56 fixed bytes give a name:
  // the rest of the body without its trailing NULs.
  lemma NameMeans(pkt: seq<Byte>)
    requires |pkt| >= 64
    ensures pkt[48..64] != [80, 65, 82, 32, 50, 46, 48, 0, 70, 105, 108, 101, 68, 101, 115, 99] || |pkt| <= 120 ==>
      NameOf(pkt) == []
    ensures pkt[48..64] == [80, 65, 82, 32, 50, 46, 48, 0, 70, 105, 108, 101, 68, 101, 115, 99] && |pkt| > 120 ==>
      && NameOf(pkt) <= pkt[120..] && (NameOf(pkt) != [] ==> NameOf(pkt)[|NameOf(pkt)| - 1] != 0)
      && forall i :: 120 + |NameOf(pkt)| <= i < |pkt| ==> pkt[i] == 0
  {
    if |pkt| > 120 {
      TrimNulMeans(pkt[120..]);
      assert pkt[64..][NAME_OFFSET..] == pkt[120..];
    }
  }

  lemma {:induction false} TrimNulMeans(s: seq<Byte>)
    ensures TrimNul(s) <= s && (TrimNul(s) != [] ==> TrimNul(s)[|TrimNul(s)| - 1] != 0)
    ensures forall i :: |TrimNul(s)| <= i < |s| ==> s[i] == 0
  {
    if s != [] && s[|s| - 1] == 0 {
      TrimNulMeans(s[..|s| - 1]);
    }
  }

  // From any packet boundary the walker reports exactly the expected names.
  lemma {:induction false} WalkFindsAll(pre: seq<Byte>, items: seq<Item>, tail: seq<Byte>, names: seq<seq<Byte>>)
    requires AllGood(items) && NoMagic(tail) && |pre + Joined(items, tail)| < TWO63
    ensures WalkFrom(pre + Joined(items, tail), |pre|, names) == Names(Expected(items, names))
    decreases |items|
  {
    hide WalkFrom, FindMagic, NameOf, AddName, LengthField, MagicAt, WellFormed, NoMagic, Joined;
    var data := pre + Joined(items, tail);
    if items == [] {
      NothingJoined(tail);
      WalkTail(pre, tail, names);
    } else {
      var gap, pkt, rest := items[0].gap, items[0].pkt, Joined(items[1..], tail);
      var next := pre + gap + pkt;
      JoinedHead(pre, items, tail);
      PacketThere(pre, gap, pkt, rest);
      WalkAcross(data, |pre|, |pre| + |gap|, |pkt|, names);
      WalkFindsAll(next, items[1..], tail, AddName(names, NameOf(pkt)));
    }
  }

  lemma NothingJoined(tail: seq<Byte>)
    ensures Joined([], tail) == tail
  {
  }

  lemma JoinedHead(pre: seq<Byte>, items: seq<Item>, tail: seq<Byte>)
    requires items != []
    ensures pre + Joined(items, tail) == pre + items[0].gap + items[0].pkt + Joined(items[1..], tail)
  {
    hide NoMagic, WellFormed;
  }

  lemma WalkTail(pre: seq<Byte>, tail: seq<Byte>, names: seq<seq<Byte>>)
    requires NoMagic(tail) && |pre + tail| < TWO63
    ensures WalkFrom(pre + tail, |pre|, names) == Names(names)
  {
    TailIsSkipped(pre, tail);
  }

  // One iteration over an intact packet.
  lemma WalkAcross(data: seq<Byte>, offset: nat, start: nat, len: nat, names: seq<seq<Byte>>)
    requires offset <= start && HEADER_LEN <= len && start + len <= |data| < TWO63
    requires FindMagic(data, offset) == Some(start) && LengthField(data, start) == len
    ensures WalkFrom(data, offset, names) ==
      WalkFrom(data, start + len, AddName(names, NameOf(data[start..start + len])))
  {
    hide FindMagic, NameOf, AddName, LengthField, MagicAt;
  }

  lemma PacketThere(pre: seq<Byte>, gap: seq<Byte>, pkt: seq<Byte>, rest: seq<Byte>)
    requires NoMagic(gap) && WellFormed(pkt) && |pre + gap + pkt + rest| < TWO63
    ensures var data := pre + gap + pkt + rest; var start := |pre| + |gap|;
      && FindMagic(data, |pre|) == Some(start)
      && HEADER_LEN <= |pkt| && start + HEADER_LEN <= |data| && LengthField(data, start) == |pkt|
      && data[start..start + |pkt|] == pkt
  {
    GapIsSkipped(pre, gap, pkt, rest);
    var data := pre + gap + pkt + rest;
    var start := |pre| + |gap|;
    assert data[start + 8..start + 16] == pkt[8..16];
  }

  // Round trip with resynchronisation: any sequence of well-formed packets,
  // preceded, separated and followed by bytes without the magic, yields
  // exactly the File Description names, each once, in first-seen order.
  lemma Par2RoundTrip(items: seq<Item>, tail: seq<Byte>)
    requires AllGood(items) && NoMagic(tail) && |Joined(items, tail)| < TWO63
    ensures Parse(Joined(items, tail)) ==
            var names := Expected(items, []); if names == [] then NoFilenames else Filenames(names)
  {
    assert [] + Joined(items, tail) == Joined(items, tail);
    WalkFindsAll([], items, tail, []);
  }

  // ---- building a File Description packet ----

  function ToLE(n: nat, k: nat): (s: seq<Byte>)
    ensures |s| == k
  {
    if k == 0 then [] else [n % 256] + ToLE(n / 256, k - 1)
  }

  // A header whose length field is below 64 or reaches past the data is passed
  // over: the walk goes on right behind its magic and finds all that follows.
  // The corrupt field and what comes after it is the first gap.
  lemma CorruptHeaderIsSkipped(items: seq<Item>, tail: seq<Byte>)
    requires items != [] && AllGood(items) && NoMagic(tail) && |items[0].gap| >= 8
    requires var size := |MAGIC + Joined(items, tail)|; var n := FromLE(items[0].gap[..8]);
      size < TWO63 && (n < 64 || size < n < TWO63)
    ensures Parse([80, 65, 82, 50, 0, 80, 75, 84] + Joined(items, tail)) ==
            var names := Expected(items, []); if names == [] then NoFilenames else Filenames(names)
  {
    hide FindMagic, WalkFrom, WellFormed, NoMagic, MagicAt, Expected, FromLE, Joined;
    var rest := Joined(items, tail);
    HeadOf(items, tail);
    StartsAtMagic(rest);
    assert (MAGIC + rest)[8..16] == items[0].gap[..8];
    SkipsHeader(MAGIC + rest, items[0].gap[..8]);
    WalkFindsAll(MAGIC, items, tail, []);
  }

  lemma HeadOf(items: seq<Item>, tail: seq<Byte>)
    requires items != [] && WellFormed(items[0].pkt)
    ensures |Joined(items, tail)| >= |items[0].gap| + 64 && items[0].gap <= Joined(items, tail)
  {
  }

  lemma StartsAtMagic(rest: seq<Byte>)
    ensures FindMagic(MAGIC + rest, 0) == Some(0)
  {
    assert (MAGIC + rest)[0..8] == MAGIC;
  }

  lemma SkipsHeader(data: seq<Byte>, field: seq<Byte>)
    requires 64 <= |data| < TWO63 && FindMagic(data, 0) == Some(0) && data[8..16] == field
    requires FromLE(field) < 64 || |data| < FromLE(field) < TWO63
    ensures WalkFrom(data, 0, []) == WalkFrom(data, 8, [])
  {
    hide FindMagic, NameOf;
  }

  lemma {:induction false} LERoundTrip(n: nat, k: nat)
    requires n < Pow256(k)
    ensures FromLE(ToLE(n, k)) == n
  {
    if k > 0 {
      LERoundTrip(n / 256, k - 1);
      assert ToLE(n, k)[1..] == ToLE(n / 256, k - 1);
    }
  }

  function Zeros(n: nat): (s: seq<Byte>)
    ensures |s| == n
  {
    seq(n, _ => 0)
  }

  function Build(hash: seq<Byte>, ids: seq<Byte>, name: seq<Byte>): (p: seq<Byte>)
    requires |hash| == 32 && |ids| == 56
  {
    var pad := (4 - |name| % 4) % 4;
    MAGIC + ToLE(HEADER_LEN + NAME_OFFSET + |name| + pad, 8) + hash + FILE_DESC + (ids + (name + Zeros(pad)))
  }

  lemma {:induction false} TrimPadding(name: seq<Byte>, pad: nat)
    requires name == [] || name[|name| - 1] != 0
    ensures TrimNul(name + Zeros(pad)) == name
  {
    if pad == 0 {
      assert name + Zeros(0) == name;
    } else {
      assert (name + Zeros(pad))[..|name| + pad - 1] == name + Zeros(pad - 1);
      TrimPadding(name, pad - 1);
    }
  }

  // A built packet is well formed and carries its name, whatever the hash,
  // set id and file ids.
  lemma BuiltPacket(hash: seq<Byte>, ids: seq<Byte>, name: seq<Byte>)
    requires |hash| == 32 && |ids| == 56 && |name| < TWO63 - 200
    requires name != [] && name[|name| - 1] != 0
    ensures WellFormed(Build(hash, ids, name)) && NameOf(Build(hash, ids, name)) == name
  {
    var pad := (4 - |name| % 4) % 4;
    var p := Build(hash, ids, name);
    var n := HEADER_LEN + NAME_OFFSET + |name| + pad;
    assert |p| == n;
    FromLEBound(ToLE(n, 8));
    assert Pow256(8) == 256 * (256 * (256 * (256 * (256 * (256 * (256 * (256 * Pow256(0)))))))) == TWO64;
    LERoundTrip(n, 8);
    assert p[..8] == MAGIC && p[8..16] == ToLE(n, 8) && p[48..64] == FILE_DESC;
    assert p[64..] == ids + (name + Zeros(pad));
    assert p[64..][NAME_OFFSET..] == name + Zeros(pad);
    TrimPadding(name, pad);
  }
}
