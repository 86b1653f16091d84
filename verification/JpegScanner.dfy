/** The JPEG marker scanner: it skips from marker to marker until a frame header gives the
    image size. */
module JpegScanner {
  import opened Basics

  newtype byte = x: int | 0 <= x < 256

  datatype Dimensions = Dimensions(width: nat, height: nat)

  function ReadUInt16BE(b: seq<byte>, i: nat): nat
    requires i + 1 < |b|
  {
    b[i] as nat * 256 + b[i + 1] as nat
  }

  function UInt16BE(n: nat): seq<byte>
    requires n < 0x1_0000
  {
    [(n / 256) as byte, (n % 256) as byte]
  }

  /** Markers that carry no length: SOI, EOI, TEM and RSTn. */
  predicate IsBare(marker: byte) {
    marker == 0xd8 || marker == 0xd9 || marker == 0x01 || 0xd0 <= marker <= 0xd7
  }

  /** The frame headers SOF0 to SOF15, without DHT, JPG and DAC. */
  predicate IsFrame(marker: byte) {
    || 0xc0 <= marker <= 0xc3
    || 0xc5 <= marker <= 0xc7
    || 0xc9 <= marker <= 0xcb
    || 0xcd <= marker <= 0xcf
  }

  /** The markers by number (Table B.1 of ITU-T T.81). */
  lemma MarkerTable(m: byte)
    ensures IsBare(m) <==> m in {0x01, 0xd0, 0xd1, 0xd2, 0xd3, 0xd4, 0xd5, 0xd6, 0xd7, 0xd8, 0xd9}
    ensures IsFrame(m) <==> m in {0xc0, 0xc1, 0xc2, 0xc3, 0xc5, 0xc6, 0xc7, 0xc9, 0xca, 0xcb, 0xcd, 0xce, 0xcf}
  {
  }

  /** What the scanner reads from `offset` on. */
  function Scan(b: seq<byte>, offset: nat): Option<Dimensions>
    decreases |b| - offset
  {
    if offset + 9 >= |b| then None
    else if b[offset] != 0xff then Scan(b, offset + 1)
    else
      var marker := b[offset + 1];
      if IsBare(marker) then Scan(b, offset + 2)
      else
        var length := ReadUInt16BE(b, offset + 2);
        if length < 2 || offset + 2 + length > |b| then None
        else if IsFrame(marker) then
          if length < 7 then None
          else Some(Dimensions(ReadUInt16BE(b, offset + 7), ReadUInt16BE(b, offset + 5)))
        else Scan(b, offset + 2 + length)
  }

  /** Every read is in range and the scan ends on every buffer. */
  method ReadJpegDimensions(buffer: seq<byte>) returns (r: Option<Dimensions>)
    ensures r == Scan(buffer, 2)
  {
    var offset := 2;
    while offset + 9 < |buffer|
      invariant Scan(buffer, offset) == Scan(buffer, 2)
      decreases |buffer| - offset
    {
      if buffer[offset] != 0xff {
        offset := offset + 1;
        continue;
      }
      var marker := buffer[offset + 1];
      offset := offset + 2;
      if marker == 0xd8 || marker == 0xd9 {
        continue;
      }
      if marker == 0x01 || (marker >= 0xd0 && marker <= 0xd7) {
        continue;
      }
      if offset + 2 > |buffer| {
        return None;
      }
      var length := ReadUInt16BE(buffer, offset);
      if length < 2 || offset + length > |buffer| {
        return None;
      }
      if IsFrame(marker) {
        if length < 7 {
          return None;
        }
        return Some(Dimensions(ReadUInt16BE(buffer, offset + 5), ReadUInt16BE(buffer, offset + 3)));
      }
      offset := offset + length;
    }
    return None;
  }

  /** What may stand before the frame header: a byte that starts no marker, a marker without
      a length, or a segment with its payload. */
  datatype Item =
    | Stray(b: byte)
    | Bare(marker: byte)
    | Segment(marker: byte, payload: seq<byte>)

  datatype Frame = Frame(marker: byte, precision: byte, height: nat, width: nat, components: seq<byte>)

  ghost predicate ItemOk(i: Item) {
    match i
    case Stray(b) => b != 0xff
    case Bare(m) => IsBare(m)
    case Segment(m, payload) => !IsBare(m) && !IsFrame(m) && |payload| + 2 < 0x1_0000
  }

  ghost predicate FrameOk(f: Frame) {
    IsFrame(f.marker) && f.height < 0x1_0000 && f.width < 0x1_0000 && |f.components| + 7 < 0x1_0000
  }

  /** The marker segment syntax of section B.1.1.4 of ITU-T T.81. */
  ghost function EncodeItem(i: Item): seq<byte>
    requires ItemOk(i)
  {
    match i
    case Stray(b) => [b]
    case Bare(m) => [0xff, m]
    case Segment(m, payload) => [0xff, m] + UInt16BE(|payload| + 2) + payload
  }

  ghost predicate ItemsOk(items: seq<Item>) {
    forall i :: 0 <= i < |items| ==> ItemOk(items[i])
  }

  ghost function EncodeItems(items: seq<Item>): seq<byte>
    requires ItemsOk(items)
  {
    if items == [] then [] else EncodeItem(items[0]) + EncodeItems(items[1..])
  }

  /** The frame header syntax of section B.2.2 of ITU-T T.81. */
  ghost function EncodeFrame(f: Frame): seq<byte>
    requires FrameOk(f)
  {
    [0xff, f.marker] + UInt16BE(|f.components| + 7)
    + [f.precision] + UInt16BE(f.height) + UInt16BE(f.width) + f.components
  }

  /** The bytes of b from `offset` on are s. */
  ghost predicate At(b: seq<byte>, offset: nat, s: seq<byte>) {
    offset <= |b| && b[offset..] == s
  }

  /** b from `offset` on is a run of items, a frame header and more bytes. The scanner asks
      for at least one byte after the nine it reads of a frame header. */
  ghost predicate Parses(b: seq<byte>, offset: nat, items: seq<Item>, f: Frame, rest: seq<byte>) {
    && ItemsOk(items) && FrameOk(f)
    && |f.components| + |rest| > 0
    && At(b, offset, EncodeItems(items) + (EncodeFrame(f) + rest))
  }

  lemma AtSplit(b: seq<byte>, offset: nat, head: seq<byte>, tail: seq<byte>)
    requires At(b, offset, head + tail)
    ensures offset + |head| + |tail| == |b|
    ensures b[offset..offset + |head|] == head && At(b, offset + |head|, tail)
  {
    assert |b[offset..]| == |head| + |tail|;
    assert b[offset..offset + |head|] == b[offset..][..|head|];
    assert b[offset + |head|..] == b[offset..][|head|..];
  }

  lemma AtJoin(b: seq<byte>, offset: nat, head: seq<byte>, tail: seq<byte>)
    requires offset + |head| <= |b| && b[offset..offset + |head|] == head && At(b, offset + |head|, tail)
    ensures At(b, offset, head + tail)
  {
    assert b[offset..] == b[offset..offset + |head|] + b[offset + |head|..];
  }

  lemma AtByte(b: seq<byte>, offset: nat, s: seq<byte>, i: nat)
    requires At(b, offset, s) && i < |s|
    ensures offset + i < |b| && b[offset + i] == s[i]
  {
    assert b[offset + i] == b[offset..][i];
  }

  lemma Assoc(a: seq<byte>, b: seq<byte>, c: seq<byte>)
    ensures (a + b) + c == a + (b + c)
  {
  }

  lemma UInt16RoundTrip(b: seq<byte>, i: nat, n: nat)
    requires n < 0x1_0000 && i + 1 < |b| && b[i] == UInt16BE(n)[0] && b[i + 1] == UInt16BE(n)[1]
    ensures ReadUInt16BE(b, i) == n
  {
  }

  lemma FrameBytes(f: Frame)
    requires FrameOk(f)
    ensures var e := EncodeFrame(f);
      && |e| == 9 + |f.components|
      && e[0] == 0xff && e[1] == f.marker
      && e[2] == UInt16BE(|f.components| + 7)[0] && e[3] == UInt16BE(|f.components| + 7)[1]
      && e[5] == UInt16BE(f.height)[0] && e[6] == UInt16BE(f.height)[1]
      && e[7] == UInt16BE(f.width)[0] && e[8] == UInt16BE(f.width)[1]
  {
  }

  lemma ScanFrame(b: seq<byte>, offset: nat, f: Frame, rest: seq<byte>)
    requires FrameOk(f) && |f.components| + |rest| > 0 && At(b, offset, EncodeFrame(f) + rest)
    ensures Scan(b, offset) == Some(Dimensions(f.width, f.height))
  {
    var s := EncodeFrame(f) + rest;
    FrameBytes(f);
    AtSplit(b, offset, EncodeFrame(f), rest);
    hide EncodeFrame, UInt16BE;
    forall i | 0 <= i < 9 ensures b[offset + i] == EncodeFrame(f)[i] {
      AtByte(b, offset, s, i);
    }
    hide At;
    assert b[offset + 0] == 0xff && b[offset + 1] == f.marker;
    UInt16RoundTrip(b, offset + 2, |f.components| + 7);
    UInt16RoundTrip(b, offset + 5, f.height);
    UInt16RoundTrip(b, offset + 7, f.width);
    hide ReadUInt16BE;
  }

  /** The scanner steps over one encoded item. */
  lemma ScanItem(b: seq<byte>, offset: nat, item: Item)
    requires ItemOk(item)
    requires offset + |EncodeItem(item)| + 10 <= |b|
    requires b[offset..offset + |EncodeItem(item)|] == EncodeItem(item)
    ensures Scan(b, offset) == Scan(b, offset + |EncodeItem(item)|)
  {
    var e := EncodeItem(item);
    var s := b[offset..offset + |e|];
    assert b[offset] == s[0];
    assert |e| > 1 ==> b[offset + 1] == s[1];
    if item.Segment? {
      assert b[offset + 2] == s[2] && b[offset + 3] == s[3];
      UInt16RoundTrip(b, offset + 2, |item.payload| + 2);
      hide ReadUInt16BE;
    }
  }

  lemma FirstOfItems(b: seq<byte>, offset: nat, items: seq<Item>, tail: seq<byte>)
    requires items != [] && ItemsOk(items) && At(b, offset, EncodeItems(items) + tail)
    ensures ItemOk(items[0]) && ItemsOk(items[1..])
    ensures var e := EncodeItem(items[0]);
      && offset + |e| + |tail| <= |b|
      && b[offset..offset + |e|] == e
      && At(b, offset + |e|, EncodeItems(items[1..]) + tail)
      && |EncodeItems(items)| == |e| + |EncodeItems(items[1..])|
  {
    var e, more := EncodeItem(items[0]), EncodeItems(items[1..]);
    assert EncodeItems(items) == e + more;
    hide EncodeItem, EncodeItems, At;
    Assoc(e, more, tail);
    AtSplit(b, offset, e, more + tail);
  }

  /** The scanner steps over a run of items when enough bytes follow. */
  lemma {:induction false} ScanItems(b: seq<byte>, offset: nat, items: seq<Item>, tail: seq<byte>)
    requires |tail| >= 10 && ItemsOk(items) && At(b, offset, EncodeItems(items) + tail)
    ensures var at := offset + |EncodeItems(items)|;
      At(b, at, tail) && Scan(b, offset) == Scan(b, at)
    decreases |items|
  {
    hide Scan;
    if items != [] {
      hide EncodeItem, EncodeItems, ItemOk, ItemsOk, At;
      FirstOfItems(b, offset, items, tail);
      ScanItem(b, offset, items[0]);
      ScanItems(b, offset + |EncodeItem(items[0])|, items[1..], tail);
    } else {
      assert EncodeItems(items) + tail == tail;
    }
  }

  /** Completeness: over any run of items the scanner finds the frame header and returns the
      size encoded in it. */
  lemma ScanFindsFrame(b: seq<byte>, offset: nat, items: seq<Item>, f: Frame, rest: seq<byte>)
    requires Parses(b, offset, items, f, rest)
    ensures Scan(b, offset) == Some(Dimensions(f.width, f.height))
  {
    hide Scan, EncodeFrame, EncodeItem, EncodeItems, At, ItemsOk, FrameOk, UInt16BE;
    FrameBytes(f);
    ScanItems(b, offset, items, EncodeFrame(f) + rest);
    ScanFrame(b, offset + |EncodeItems(items)|, f, rest);
  }

  lemma UInt16OfRead(b: seq<byte>, i: nat)
    requires i + 1 < |b|
    ensures ReadUInt16BE(b, i) < 0x1_0000 && UInt16BE(ReadUInt16BE(b, i)) == b[i..i + 2]
  {
  }

  lemma PrependItem(b: seq<byte>, offset: nat, item: Item, items: seq<Item>, f: Frame, rest: seq<byte>)
    requires ItemOk(item) && offset + |EncodeItem(item)| <= |b|
    requires b[offset..offset + |EncodeItem(item)|] == EncodeItem(item)
    requires Parses(b, offset + |EncodeItem(item)|, items, f, rest)
    ensures Parses(b, offset, [item] + items, f, rest)
  {
    var e, more := EncodeItem(item), EncodeItems(items);
    assert ([item] + items)[1..] == items;
    assert EncodeItems([item] + items) == e + more;
    hide EncodeItem, EncodeItems, EncodeFrame, FrameOk, ItemOk, At;
    AtJoin(b, offset, e, more + (EncodeFrame(f) + rest));
    Assoc(e, more, EncodeFrame(f) + rest);
  }

  /** The frame header the scanner stopped at. */
  lemma FrameAt(b: seq<byte>, offset: nat) returns (f: Frame, rest: seq<byte>)
    requires offset + 9 < |b| && b[offset] == 0xff && IsFrame(b[offset + 1])
    requires 7 <= ReadUInt16BE(b, offset + 2) && offset + 2 + ReadUInt16BE(b, offset + 2) <= |b|
    ensures Parses(b, offset, [], f, rest)
    ensures f.height == ReadUInt16BE(b, offset + 5) && f.width == ReadUInt16BE(b, offset + 7)
  {
    var length := ReadUInt16BE(b, offset + 2);
    UInt16OfRead(b, offset + 2);
    UInt16OfRead(b, offset + 5);
    UInt16OfRead(b, offset + 7);
    f := Frame(b[offset + 1], b[offset + 4], ReadUInt16BE(b, offset + 5), ReadUInt16BE(b, offset + 7),
      b[offset + 9..offset + 2 + length]);
    rest := b[offset + 2 + length..];
    assert b[offset..] == [b[offset], b[offset + 1]] + b[offset + 2..offset + 4] + [b[offset + 4]]
      + b[offset + 5..offset + 7] + b[offset + 7..offset + 9] + f.components + rest;
  }

  /** The item the scanner steps over. */
  lemma ItemAt(b: seq<byte>, offset: nat) returns (item: Item)
    requires Scan(b, offset).Some? && (b[offset] != 0xff || !IsFrame(b[offset + 1]))
    ensures ItemOk(item) && offset + |EncodeItem(item)| <= |b| && |EncodeItem(item)| > 0
    ensures b[offset..offset + |EncodeItem(item)|] == EncodeItem(item)
    ensures Scan(b, offset) == Scan(b, offset + |EncodeItem(item)|)
  {
    if b[offset] != 0xff {
      item := Stray(b[offset]);
    } else if IsBare(b[offset + 1]) {
      item := Bare(b[offset + 1]);
    } else {
      var length := ReadUInt16BE(b, offset + 2);
      SegmentAt(b, offset, length);
      item := Segment(b[offset + 1], b[offset + 4..offset + 2 + length]);
      hide ReadUInt16BE, UInt16BE;
    }
  }

  lemma SegmentAt(b: seq<byte>, offset: nat, length: nat)
    requires offset + 9 < |b| && b[offset] == 0xff && length == ReadUInt16BE(b, offset + 2)
    requires 2 <= length && offset + 2 + length <= |b|
    ensures length < 0x1_0000
    ensures b[offset..offset + 2 + length]
      == [0xff, b[offset + 1]] + UInt16BE(length) + b[offset + 4..offset + 2 + length]
  {
    UInt16OfRead(b, offset + 2);
    hide ReadUInt16BE, UInt16BE;
    assert b[offset..offset + 2 + length]
      == [b[offset], b[offset + 1]] + b[offset + 2..offset + 4] + b[offset + 4..offset + 2 + length];
  }

  /** Soundness: whatever size the scanner returns stands in a frame header that a run of
      items leads to. */
  lemma {:induction false} ScanIsSound(b: seq<byte>, offset: nat) returns (items: seq<Item>, f: Frame, rest: seq<byte>)
    requires Scan(b, offset).Some?
    ensures Parses(b, offset, items, f, rest)
    ensures Scan(b, offset) == Some(Dimensions(f.width, f.height))
    decreases |b| - offset
  {
    if b[offset] == 0xff && IsFrame(b[offset + 1]) {
      f, rest := FrameAt(b, offset);
      items := [];
    } else {
      var item := ItemAt(b, offset);
      hide Scan, Parses, EncodeItem, ItemOk;
      items, f, rest := ScanIsSound(b, offset + |EncodeItem(item)|);
      PrependItem(b, offset, item, items, f, rest);
      items := [item] + items;
    }
  }

  /** The scanner returns a size exactly when the bytes after SOI are a run of items, a frame
      header with that size, and more. */
  lemma ReturnsSizeIff(b: seq<byte>, d: Dimensions)
    ensures Scan(b, 2) == Some(d)
      <==> exists items, f, rest :: Parses(b, 2, items, f, rest) && d == Dimensions(f.width, f.height)
  {
    if Scan(b, 2) == Some(d) {
      var items, f, rest := ScanIsSound(b, 2);
    }
    forall items, f, rest | Parses(b, 2, items, f, rest) && d == Dimensions(f.width, f.height)
      ensures Scan(b, 2) == Some(d)
    {
      ScanFindsFrame(b, 2, items, f, rest);
    }
  }

  /** Fill bytes, which may stand before any marker (section B.1.1.2 of ITU-T T.81). */
  function Fill(k: nat): seq<byte> {
    seq(k, _ => 0xff)
  }

  /** The segment length the scanner reads when k fill bytes stand before a frame header. */
  ghost function MisreadLength(k: nat, f: Frame): nat
    requires FrameOk(f) && k >= 1
  {
    if k == 1 then f.marker as nat * 0x100 + (|f.components| + 7) / 0x100
    else if k == 2 then 0xff00 + f.marker as nat
    else 0xffff
  }

  /** For every run of items, frame header and number of fill bytes before it: the first fill
      byte is taken for a marker, and at least 0xc000 bytes, the frame header among them,
      for its segment. No size is found when fewer bytes follow. */
  lemma FillBytesHideFrame(b: seq<byte>, offset: nat, items: seq<Item>, k: nat, f: Frame, rest: seq<byte>)
    requires ItemsOk(items) && FrameOk(f) && k >= 1
    requires At(b, offset, EncodeItems(items) + (Fill(k) + (EncodeFrame(f) + rest)))
    ensures var next := offset + |EncodeItems(items)| + 2 + MisreadLength(k, f);
      && MisreadLength(k, f) >= 0xc000
      && Scan(b, offset) == if next > |b| then None else Scan(b, next)
  {
    hide EncodeItems, EncodeItem, EncodeFrame, Scan, Fill, ItemsOk, MisreadLength, FrameOk, At;
    FillHead(k, f, rest);
    ScanItems(b, offset, items, Fill(k) + (EncodeFrame(f) + rest));
    ScanFill(b, offset + |EncodeItems(items)|, k, f, rest);
  }

  lemma ScanFill(b: seq<byte>, at: nat, k: nat, f: Frame, rest: seq<byte>)
    requires FrameOk(f) && k >= 1 && At(b, at, Fill(k) + (EncodeFrame(f) + rest))
    ensures var next := at + 2 + MisreadLength(k, f);
      && MisreadLength(k, f) >= 0xc000
      && Scan(b, at) == if next > |b| then None else Scan(b, next)
  {
    var tail := Fill(k) + (EncodeFrame(f) + rest);
    FillHead(k, f, rest);
    assert |b| == at + |tail|;
    hide EncodeFrame, Fill, At;
    AtByte(b, at, tail, 0);
    AtByte(b, at, tail, 1);
    AtByte(b, at, tail, 2);
    AtByte(b, at, tail, 3);
    assert ReadUInt16BE(b, at + 2) == MisreadLength(k, f);
    hide MisreadLength, ReadUInt16BE;
  }

  /** The first four bytes of a filled frame header. */
  lemma FillHead(k: nat, f: Frame, rest: seq<byte>)
    requires FrameOk(f) && k >= 1
    ensures var t := Fill(k) + (EncodeFrame(f) + rest);
      && |t| >= 10 && t[0] == 0xff && t[1] == 0xff
      && t[2] as nat * 0x100 + t[3] as nat == MisreadLength(k, f)
  {
    var e := EncodeFrame(f);
    FrameBytes(f);
    hide EncodeFrame;
    var t := Fill(k) + (e + rest);
    assert forall i :: 0 <= i < 4 ==> t[i] == if i < k then 0xff else e[i - k];
  }

  /** The smallest case: one fill byte takes a 1 by 1 image its size. */
  lemma FillByteHidesFrame()
    ensures var header := EncodeFrame(Frame(0xc0, 8, 1, 1, [1, 1, 0x11, 0]));
      && Scan([0xff, 0xd8] + header, 2) == Some(Dimensions(1, 1))
      && Scan([0xff, 0xd8, 0xff] + header, 2) == None
  {
    var f := Frame(0xc0, 8, 1, 1, [1, 1, 0x11, 0]);
    var header := EncodeFrame(f);
    assert header == [0xff, 0xc0, 0, 11, 8, 0, 1, 0, 1, 1, 1, 0x11, 0];
    var b := [0xff, 0xd8] + header;
    assert At(b, 2, EncodeItems([]) + (header + []));
    ScanFindsFrame(b, 2, [], f, []);
    var c := [0xff, 0xd8, 0xff] + header;
    assert c[2] == 0xff && c[3] == 0xff && c[4] == 0xc0 && c[5] == 0;
    assert ReadUInt16BE(c, 4) == 0xc000;
  }
}
