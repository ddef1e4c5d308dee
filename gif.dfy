/**
 * The GIF89a writer of the animation exporter: palette quantisation of a frame, the
 * little-endian shorts and ASCII strings of the format, the data sub-blocks of the
 * compressed image data, and the whole byte stream with its header, global colour
 * table, looping extension, one image per frame and trailer.
 *
 * Each part that writes bytes has a reader beside it that takes the bytes back apart, and
 * the lemmas show that reading gives back what was written.
 */
module Gif {
  import opened Wrappers
  import opened Lzw

  // ---------------------------------------------------------------- shorts and strings

  /** `writeShort`: low byte, then high byte (`val & 0xFF`, `(val >> 8) & 0xFF`). */
  function WriteShort(val: int): (r: seq<byte>)
    ensures |r| == 2
  {
    [val % 256, (val / 256) % 256]
  }

  /** An unsigned 16-bit value read low byte first. */
  function ReadShort(lo: byte, hi: byte): (v: nat)
    ensures v < 65536
  {
    lo + 256 * hi
  }

  /** Reading a written short gives the value modulo 2^16, so every value below 2^16 comes back unchanged. */
  lemma WriteShortRoundTrip(val: int)
    ensures ReadShort(WriteShort(val)[0], WriteShort(val)[1]) == val % 65536
    ensures 0 <= val < 65536 ==> ReadShort(WriteShort(val)[0], WriteShort(val)[1]) == val
  {
    var q := val / 256;
    var lo := val % 256;
    var hi := q % 256;
    var q2 := q / 256;
    assert val == 256 * q + lo;
    assert q == 256 * q2 + hi;
    assert val == 65536 * q2 + (256 * hi + lo);
  }

  /** Writing a read short gives back both bytes. */
  lemma ReadShortRoundTrip(lo: byte, hi: byte)
    ensures WriteShort(ReadShort(lo, hi)) == [lo, hi]
  {
  }

  /**
   * `writeString`: one byte per character (one per UTF-16 code unit for characters up to
   * U+FFFF), cut to eight bits by the final `Uint8Array`.
   */
  function WriteString(s: string): seq<byte> {
    seq(|s|, i requires 0 <= i < |s| => (s[i] as int) % 256)
  }

  /** Bytes read as Latin-1 characters. */
  function Latin1(bytes: seq<byte>): string {
    seq(|bytes|, i requires 0 <= i < |bytes| => bytes[i] as char)
  }

  /** A string of characters below 256 is written one byte per character and reads back unchanged. */
  lemma WriteStringRoundTrip(s: string)
    requires forall i :: 0 <= i < |s| ==> s[i] as int < 256
    ensures |WriteString(s)| == |s| && Latin1(WriteString(s)) == s
  {
  }

  /** Bytes read as Latin-1 and written again come back unchanged. */
  lemma Latin1RoundTrip(bytes: seq<byte>)
    ensures WriteString(Latin1(bytes)) == bytes
  {
  }

  /** The GIF89a signature, byte by byte. */
  lemma SignatureBytes()
    ensures WriteString("GIF89a") == [0x47, 0x49, 0x46, 0x38, 0x39, 0x61]
  {
  }

  /** The looping extension's application name, byte by byte. */
  lemma ApplicationNameBytes()
    ensures WriteString("NETSCAPE2.0") == [0x4E, 0x45, 0x54, 0x53, 0x43, 0x41, 0x50, 0x45, 0x32, 0x2E, 0x30]
  {
  }

  /** `writeString(bytes, str)`: the string's bytes appended to `bytes0`. */
  method WriteStringTo(bytes0: seq<byte>, str: string) returns (bytes: seq<byte>)
    ensures bytes == bytes0 + WriteString(str)
  {
    bytes := bytes0;
    var i := 0;
    while i < |str|
      invariant 0 <= i <= |str|
      invariant bytes == bytes0 + WriteString(str[..i])
    {
      assert WriteString(str[..i + 1]) == WriteString(str[..i]) + [(str[i] as int) % 256];
      bytes := bytes + [(str[i] as int) % 256];
      i := i + 1;
    }
    assert str[..i] == str;
  }

  // ---------------------------------------------------------------- reading primitives

  /** A value read from the front of some bytes, and the bytes after it. */
  datatype Parsed<T> = Parsed(value: T, rest: seq<byte>)

  /** The bytes after `lit`, when they start with it. */
  function TakeLiteral(bs: seq<byte>, lit: seq<byte>): (r: Option<seq<byte>>)
    ensures r.Some? ==> |r.value| == |bs| - |lit|
  {
    if |lit| <= |bs| && bs[..|lit|] == lit then Some(bs[|lit|..]) else None
  }

  lemma TakeLiteralAppend(lit: seq<byte>, rest: seq<byte>)
    ensures TakeLiteral(lit + rest, lit) == Some(rest)
  {
    assert (lit + rest)[..|lit|] == lit;
    assert (lit + rest)[|lit|..] == rest;
  }

  /** A little-endian short from the front. */
  function TakeShort(bs: seq<byte>): (r: Option<Parsed<nat>>)
    ensures r.Some? ==> |r.value.rest| == |bs| - 2 && r.value.value < 65536
  {
    if |bs| < 2 then None else Some(Parsed(ReadShort(bs[0], bs[1]), bs[2..]))
  }

  lemma TakeShortAppend(val: int, rest: seq<byte>)
    ensures TakeShort(WriteShort(val) + rest) == Some(Parsed((val % 65536) as nat, rest))
  {
    WriteShortRoundTrip(val);
    assert (WriteShort(val) + rest)[2..] == rest;
  }

  // ---------------------------------------------------------------- data sub-blocks

  /**
   * The compressed data as sub-blocks (section 15 of the GIF89a specification): a size
   * byte of at most 255, then that many bytes, until the data is used up. The block
   * terminator is written after them.
   */
  function SubBlocks(data: seq<byte>): seq<byte>
    decreases |data|
  {
    if data == [] then []
    else
      var n := if |data| < 255 then |data| else 255;
      [n] + data[..n] + SubBlocks(data[n..])
  }

  /** The sub-blocks up to the terminator: their payloads joined, and the bytes after the terminator. */
  function ReadBlocks(bs: seq<byte>): (r: Option<Parsed<seq<byte>>>)
    ensures r.Some? ==> |r.value.rest| < |bs|
    decreases |bs|
  {
    if bs == [] then None
    else if bs[0] == 0 then Some(Parsed([], bs[1..]))
    else
      var n := bs[0] as int;
      if |bs| < 1 + n then None
      else
        match ReadBlocks(bs[1 + n..])
        case None => None
        case Some(p) => Some(Parsed(bs[1..1 + n] + p.value, p.rest))
  }

  /** Reading the sub-blocks and the terminator gives back the data and what follows. */
  lemma {:induction false} ReadSubBlocks(data: seq<byte>, rest: seq<byte>)
    ensures ReadBlocks(SubBlocks(data) + [0] + rest) == Some(Parsed(data, rest))
    decreases |data|
  {
    var bs := SubBlocks(data) + [0] + rest;
    if data == [] {
      assert bs == [0] + rest;
      assert bs[1..] == rest;
    } else {
      var n := if |data| < 255 then |data| else 255;
      var tail := SubBlocks(data[n..]) + [0] + rest;
      assert bs == [n] + data[..n] + tail;
      assert bs[0] == n && bs[1..1 + n] == data[..n] && bs[1 + n..] == tail;
      ReadSubBlocks(data[n..], rest);
      assert data[..n] + data[n..] == data;
    }
  }

  /** Every block holds 1 to 255 bytes; the blocks add one size byte per 255 data bytes, rounded up. */
  lemma {:induction false} SubBlocksSize(data: seq<byte>)
    ensures |SubBlocks(data)| == |data| + (|data| + 254) / 255
    ensures data != [] ==> 1 <= SubBlocks(data)[0] <= 255 && SubBlocks(data)[0] == if |data| < 255 then |data| else 255
    decreases |data|
  {
    if data != [] {
      var n := if |data| < 255 then |data| else 255;
      SubBlocksSize(data[n..]);
    }
  }

  /** The blocks from `offset` on: one block of up to 255 bytes, then the blocks after it. */
  lemma SubBlocksFrom(data: seq<byte>, offset: nat)
    requires offset < |data|
    ensures var n := if 255 < |data| - offset then 255 else |data| - offset;
      SubBlocks(data[offset..]) == [n] + data[offset..offset + n] + SubBlocks(data[offset + n..])
  {
    var n := if 255 < |data| - offset then 255 else |data| - offset;
    var d := data[offset..];
    assert d[..n] == data[offset..offset + n];
    assert d[n..] == data[offset + n..];
  }

  lemma AppendAssoc(a: seq<byte>, b: seq<byte>, c: seq<byte>, d: seq<byte>)
    ensures a + b + c + d == a + (b + c + d)
  {
  }

  /** `for (let i = 0; i < blockSize; i++) bytes.push(compressed[offset + i])` */
  method AppendBytes(bytes0: seq<byte>, data: seq<byte>, offset: nat, count: nat) returns (bytes: seq<byte>)
    requires offset + count <= |data|
    ensures bytes == bytes0 + data[offset..offset + count]
  {
    bytes := bytes0;
    var i := 0;
    while i < count
      invariant 0 <= i <= count
      invariant bytes == bytes0 + data[offset..offset + i]
    {
      bytes := bytes + [data[offset + i]];
      assert data[offset..offset + i + 1] == data[offset..offset + i] + [data[offset + i]];
      i := i + 1;
    }
  }

  /** The `while (offset < compressed.length)` loop: the blocks appended to `bytes0`. */
  method WriteSubBlocks(bytes0: seq<byte>, compressed: seq<byte>) returns (bytes: seq<byte>)
    ensures bytes == bytes0 + SubBlocks(compressed)
  {
    bytes := bytes0;
    var offset := 0;
    while offset < |compressed|
      invariant 0 <= offset <= |compressed|
      invariant bytes + SubBlocks(compressed[offset..]) == bytes0 + SubBlocks(compressed)
      decreases |compressed| - offset
    {
      var blockSize := if 255 < |compressed| - offset then 255 else |compressed| - offset;
      ghost var before := bytes;
      ghost var chunk := compressed[offset..offset + blockSize];
      ghost var later := SubBlocks(compressed[offset + blockSize..]);
      SubBlocksFrom(compressed, offset);
      bytes := bytes + [blockSize];
      bytes := AppendBytes(bytes, compressed, offset, blockSize);
      AppendAssoc(before, [blockSize], chunk, later);
      offset := offset + blockSize;
    }
    assert compressed[offset..] == [];
  }

  // ---------------------------------------------------------------- quantisation

  /** One pixel of the canvas image data, red, green, blue and alpha. */
  datatype Pixel = Pixel(r: byte, g: byte, b: byte, a: byte)

  /** A palette entry. */
  datatype Rgb = Rgb(r: byte, g: byte, b: byte)

  const Black := Rgb(0, 0, 0)
  const PaletteSize: nat := 256

  /** The 12-bit colour key `(r >> 4) << 8 | (g >> 4) << 4 | b >> 4`: the high four bits of each channel. */
  function ColorKey(c: Rgb): (k: nat)
    ensures k < 4096
  {
    (c.r / 16) * 256 + (c.g / 16) * 16 + c.b / 16
  }

  function RgbOf(p: Pixel): Rgb {
    Rgb(p.r, p.g, p.b)
  }

  function Key(p: Pixel): nat {
    ColorKey(RgbOf(p))
  }

  /** Two colours share a key exactly when their channels agree in the high four bits. */
  lemma ColorKeyMeaning(c: Rgb, d: Rgb)
    ensures ColorKey(c) == ColorKey(d) <==> c.r / 16 == d.r / 16 && c.g / 16 == d.g / 16 && c.b / 16 == d.b / 16
  {
    KeyDigits(c.r / 16, c.g / 16, c.b / 16);
    KeyDigits(d.r / 16, d.g / 16, d.b / 16);
  }

  /** The three 4-bit fields can be read back from the key. */
  lemma KeyDigits(hi: nat, mid: nat, lo: nat)
    requires hi < 16 && mid < 16 && lo < 16
    ensures var k := hi * 256 + mid * 16 + lo;
      k / 256 == hi && (k / 16) % 16 == mid && k % 16 == lo
  {
    var k := hi * 256 + mid * 16 + lo;
    assert k == 16 * (hi * 16 + mid) + lo;
    assert k / 16 == hi * 16 + mid;
  }

  /** The colour map and palette of the first loop: each new key gets the next palette slot while fewer than 256 are taken. */
  datatype Admission = Admission(colorMap: map<nat, byte>, palette: seq<Rgb>)

  function Admit(a: Admission, p: Pixel): Admission {
    if Key(p) !in a.colorMap && |a.palette| < PaletteSize then
      Admission(a.colorMap[Key(p) := |a.palette|], a.palette + [RgbOf(p)])
    else a
  }

  /** The admission after the given pixels, in order. */
  function AdmitAll(pixels: seq<Pixel>): Admission
    decreases |pixels|
  {
    if pixels == [] then Admission(map[], [])
    else Admit(AdmitAll(pixels[..|pixels| - 1]), pixels[|pixels| - 1])
  }

  /**
   * The colour map and the palette name each other: at most 256 entries, every key maps
   * to a slot holding a colour with that key, and every slot is the one its colour's key
   * maps to.
   */
  predicate AdmissionInv(a: Admission) {
    |a.palette| <= PaletteSize
    && (forall k :: k in a.colorMap ==> a.colorMap[k] < |a.palette| && ColorKey(a.palette[a.colorMap[k]]) == k)
    && (forall j :: 0 <= j < |a.palette| ==> ColorKey(a.palette[j]) in a.colorMap && a.colorMap[ColorKey(a.palette[j])] == j)
  }

  lemma AdmitKeeps(a: Admission, p: Pixel)
    requires AdmissionInv(a)
    ensures var a' := Admit(a, p);
      AdmissionInv(a')
      && (Key(p) in a'.colorMap || |a'.palette| == PaletteSize)
      && a.colorMap.Keys <= a'.colorMap.Keys
      && (|a.palette| == PaletteSize ==> |a'.palette| == PaletteSize)
      && a'.palette[..|a.palette|] == a.palette
      && (a'.palette == a.palette || a'.palette == a.palette + [RgbOf(p)])
  {
    var a' := Admit(a, p);
    if Key(p) !in a.colorMap && |a.palette| < PaletteSize {
      var k := Key(p);
      forall j | 0 <= j < |a'.palette| ensures ColorKey(a'.palette[j]) in a'.colorMap && a'.colorMap[ColorKey(a'.palette[j])] == j {
        if j < |a.palette| {
          assert a'.palette[j] == a.palette[j];
          assert ColorKey(a.palette[j]) != k;
        }
      }
    }
  }

  /** The colours of the pixels, in order. */
  function Colors(pixels: seq<Pixel>): seq<Rgb> {
    seq(|pixels|, i requires 0 <= i < |pixels| => RgbOf(pixels[i]))
  }

  /**
   * After any pixels: the invariant holds; every pixel's key was admitted unless the
   * palette filled up; and every palette entry is the colour of one of the pixels.
   */
  lemma {:induction false} AdmitAllMeaning(pixels: seq<Pixel>)
    ensures var a := AdmitAll(pixels);
      AdmissionInv(a)
      && (forall i :: 0 <= i < |pixels| ==> Key(pixels[i]) in a.colorMap || |a.palette| == PaletteSize)
      && (forall j :: 0 <= j < |a.palette| ==> a.palette[j] in Colors(pixels))
    decreases |pixels|
  {
    if pixels != [] {
      var init := pixels[..|pixels| - 1];
      var p := pixels[|pixels| - 1];
      AdmitAllMeaning(init);
      assert pixels == init + [p];
      AdmitStep(init, p, AdmitAll(init));
    }
  }

  /** One more pixel keeps the three facts of `AdmitAllMeaning`. */
  lemma AdmitStep(init: seq<Pixel>, p: Pixel, a0: Admission)
    requires AdmissionInv(a0)
    requires forall i :: 0 <= i < |init| ==> Key(init[i]) in a0.colorMap || |a0.palette| == PaletteSize
    requires forall j :: 0 <= j < |a0.palette| ==> a0.palette[j] in Colors(init)
    ensures var a := Admit(a0, p);
      AdmissionInv(a)
      && (forall i :: 0 <= i < |init + [p]| ==> Key((init + [p])[i]) in a.colorMap || |a.palette| == PaletteSize)
      && (forall j :: 0 <= j < |a.palette| ==> a.palette[j] in Colors(init + [p]))
  {
    var a := Admit(a0, p);
    AdmitKeeps(a0, p);
    CoverStep(init, p, a0, a);
    ColorsStep(init, p, a0, a);
  }

  lemma CoverStep(init: seq<Pixel>, p: Pixel, a0: Admission, a: Admission)
    requires forall i :: 0 <= i < |init| ==> Key(init[i]) in a0.colorMap || |a0.palette| == PaletteSize
    requires Key(p) in a.colorMap || |a.palette| == PaletteSize
    requires a0.colorMap.Keys <= a.colorMap.Keys
    requires |a0.palette| == PaletteSize ==> |a.palette| == PaletteSize
    ensures forall i :: 0 <= i < |init + [p]| ==> Key((init + [p])[i]) in a.colorMap || |a.palette| == PaletteSize
  {
    forall i | 0 <= i < |init + [p]| ensures Key((init + [p])[i]) in a.colorMap || |a.palette| == PaletteSize {
      if i < |init| { assert (init + [p])[i] == init[i]; }
    }
  }

  lemma ColorsStep(init: seq<Pixel>, p: Pixel, a0: Admission, a: Admission)
    requires forall j :: 0 <= j < |a0.palette| ==> a0.palette[j] in Colors(init)
    requires a.palette == a0.palette || a.palette == a0.palette + [RgbOf(p)]
    ensures forall j :: 0 <= j < |a.palette| ==> a.palette[j] in Colors(init + [p])
  {
    var cs := Colors(init + [p]);
    assert cs == Colors(init) + [RgbOf(p)];
    forall j | 0 <= j < |a.palette| ensures a.palette[j] in cs {
      if j < |a0.palette| {
        assert a.palette[j] == a0.palette[j];
      } else {
        assert a.palette[j] == cs[|init|];
      }
    }
  }

  /** `while (palette.length < 256) palette.push([0, 0, 0])` */
  function Filled(palette: seq<Rgb>): (r: seq<Rgb>)
    requires |palette| <= PaletteSize
  {
    palette + seq(PaletteSize - |palette|, _ => Black)
  }

  /** `colorMap.get(key) || 0`: the slot of the pixel's key, or 0 for a key that was never admitted. */
  function IndexOf(colorMap: map<nat, byte>, p: Pixel): byte {
    if Key(p) in colorMap then colorMap[Key(p)] else 0
  }

  /** A frame's palette and its pixels as palette indices. */
  datatype Quantized = Quantized(palette: seq<Rgb>, indexed: seq<byte>)

  /** `quantize(pixels)`. */
  function QuantizeSpec(pixels: seq<Pixel>): (q: Quantized)
    ensures |q.palette| == PaletteSize && |q.indexed| == |pixels|
  {
    var a := AdmitAll(pixels);
    AdmitAllMeaning(pixels);
    Quantized(Filled(a.palette), seq(|pixels|, i requires 0 <= i < |pixels| => IndexOf(a.colorMap, pixels[i])))
  }

  /**
   * The palette has exactly 256 entries and there is one index per pixel. A pixel whose
   * key was admitted indexes an entry with the same key; a pixel whose key was not
   * admitted gets index 0, and then the first 256 keys had filled the palette. Every
   * entry is a pixel's colour or black padding.
   */
  lemma QuantizeMeaning(pixels: seq<Pixel>)
    ensures var q := QuantizeSpec(pixels);
      var a := AdmitAll(pixels);
      |q.palette| == PaletteSize && |q.indexed| == |pixels|
      && (forall i :: 0 <= i < |pixels| && Key(pixels[i]) in a.colorMap ==>
            ColorKey(q.palette[q.indexed[i]]) == Key(pixels[i]))
      && (forall i :: 0 <= i < |pixels| && Key(pixels[i]) !in a.colorMap ==>
            q.indexed[i] == 0 && |a.palette| == PaletteSize)
      && (forall j :: 0 <= j < PaletteSize ==> q.palette[j] in Colors(pixels) || q.palette[j] == Black)
  {
    var q := QuantizeSpec(pixels);
    var a := AdmitAll(pixels);
    AdmitAllMeaning(pixels);
    forall i | 0 <= i < |pixels| && Key(pixels[i]) in a.colorMap
      ensures ColorKey(q.palette[q.indexed[i]]) == Key(pixels[i])
    {
      assert q.indexed[i] == a.colorMap[Key(pixels[i])];
    }
    forall j | 0 <= j < PaletteSize ensures q.palette[j] in Colors(pixels) || q.palette[j] == Black {
      if j < |a.palette| { assert q.palette[j] == a.palette[j]; }
    }
  }

  /** `quantize`: the admission loop, the padding loop and the mapping loop. */
  method Quantize(pixels: seq<Pixel>) returns (palette: seq<Rgb>, indexed: seq<byte>)
    ensures Quantized(palette, indexed) == QuantizeSpec(pixels)
  {
    var colorMap;
    colorMap, palette := AdmitPixels(pixels);
    AdmitAllMeaning(pixels);
    palette := PadPalette(palette);
    indexed := IndexPixels(colorMap, pixels);
  }

  /** The first loop of `quantize`: each pixel's key is admitted while the palette has room. */
  method AdmitPixels(pixels: seq<Pixel>) returns (colorMap: map<nat, byte>, palette: seq<Rgb>)
    ensures Admission(colorMap, palette) == AdmitAll(pixels)
  {
    colorMap := map[];
    palette := [];
    var i := 0;
    while i < |pixels|
      invariant 0 <= i <= |pixels|
      invariant Admission(colorMap, palette) == AdmitAll(pixels[..i])
    {
      assert pixels[..i + 1][..i] == pixels[..i];
      var key := Key(pixels[i]);
      if key !in colorMap && |palette| < 256 {
        colorMap := colorMap[key := |palette|];
        palette := palette + [RgbOf(pixels[i])];
      }
      i := i + 1;
    }
    assert pixels[..i] == pixels;
  }

  /** The padding loop: black entries until there are 256. */
  method PadPalette(palette0: seq<Rgb>) returns (palette: seq<Rgb>)
    requires |palette0| <= PaletteSize
    ensures palette == Filled(palette0) && |palette| == PaletteSize
  {
    palette := palette0;
    while |palette| < 256
      invariant |palette0| <= |palette| <= PaletteSize
      invariant Filled(palette) == Filled(palette0)
      decreases PaletteSize - |palette|
    {
      assert Filled(palette + [Black]) == Filled(palette);
      palette := palette + [Black];
    }
  }

  /** The mapping loop, writing into a zero-filled `Uint8Array` of one entry per pixel. */
  method IndexPixels(colorMap: map<nat, byte>, pixels: seq<Pixel>) returns (indexed: seq<byte>)
    ensures |indexed| == |pixels|
    ensures forall i :: 0 <= i < |pixels| ==> indexed[i] == IndexOf(colorMap, pixels[i])
  {
    var arr := new byte[|pixels|](_ => 0);
    var i := 0;
    while i < |pixels|
      invariant 0 <= i <= |pixels|
      invariant forall k :: 0 <= k < i ==> arr[k] == IndexOf(colorMap, pixels[k])
    {
      arr[i] := IndexOf(colorMap, pixels[i]);
      i := i + 1;
    }
    indexed := arr[..];
  }

  // ---------------------------------------------------------------- the byte stream

  /** A frame as the encoder keeps it: palette, indices and the delay in milliseconds at the time it was added. */
  datatype Frame = Frame(palette: seq<Rgb>, indexed: seq<byte>, delay: int)

  /**
   * Header and logical screen descriptor (sections 17 and 18 of the GIF89a specification):
   * the signature, width and height, and flags 0xF7 announcing a global colour table of 256
   * entries, background colour 0 and no aspect ratio.
   */
  function Header(width: int, height: int): (r: seq<byte>)
    ensures |r| == 13
  {
    WriteString("GIF89a") + WriteShort(width) + WriteShort(height) + [0xF7, 0x00, 0x00]
  }

  function RgbBytes(c: Rgb): seq<byte> {
    [c.r, c.g, c.b]
  }

  /** Palette entries as red, green, blue triples. */
  function PaletteBytes(palette: seq<Rgb>): (r: seq<byte>)
    ensures |r| == 3 * |palette|
    decreases |palette|
  {
    if palette == [] then [] else RgbBytes(palette[0]) + PaletteBytes(palette[1..])
  }

  lemma {:induction false} PaletteBytesSnoc(palette: seq<Rgb>, c: Rgb)
    ensures PaletteBytes(palette + [c]) == PaletteBytes(palette) + RgbBytes(c)
    decreases |palette|
  {
    if palette == [] {
      assert [c][1..] == [];
    } else {
      assert (palette + [c])[1..] == palette[1..] + [c];
      PaletteBytesSnoc(palette[1..], c);
    }
  }

  /** The global colour table: the first frame's 256 entries, or nothing when there is no frame. */
  function GlobalColorTable(frames: seq<Frame>): seq<byte>
    requires frames != [] ==> |frames[0].palette| >= PaletteSize
  {
    if frames == [] then [] else PaletteBytes(frames[0].palette[..PaletteSize])
  }

  /** The NETSCAPE2.0 application extension asking viewers to loop forever. */
  function LoopingExtension(): (r: seq<byte>)
    ensures |r| == 19
  {
    [0x21, 0xFF, 0x0B] + WriteString("NETSCAPE2.0") + [0x03, 0x01] + WriteShort(0) + [0x00]
  }

  /** `Math.round(delay / 10)` for a whole number of milliseconds: hundredths of a second. */
  function Centiseconds(delay: int): int {
    (delay + 5) / 10
  }

  /** The delay is rounded to the nearest hundredth of a second, halves upward. */
  lemma CentisecondsMeaning(delay: int)
    ensures 10 * Centiseconds(delay) - 5 <= delay < 10 * Centiseconds(delay) + 5
  {
  }

  /**
   * The fixed 19 bytes before a frame's image data: graphic control extension with the
   * delay, image descriptor at (0, 0) with the full size and no local colour table, and
   * the LZW minimum code size 8.
   */
  function ImageHead(f: Frame, width: int, height: int): (r: seq<byte>)
    ensures |r| == 19
  {
    var d := WriteShort(Centiseconds(f.delay));
    var w := WriteShort(width);
    var h := WriteShort(height);
    [0x21, 0xF9, 0x04, 0x00, d[0], d[1], 0x00, 0x00, 0x2C, 0, 0, 0, 0, w[0], w[1], h[0], h[1], 0x00, 0x08]
  }

  /** The compressed indices of a frame. */
  function FrameData(f: Frame): seq<byte> {
    Pack(LzwCodes(f.indexed))
  }

  /** One frame: head, compressed data in sub-blocks, block terminator. */
  function ImageBlock(f: Frame, width: int, height: int): seq<byte> {
    ImageHead(f, width, height) + SubBlocks(FrameData(f)) + [0x00]
  }

  function Images(frames: seq<Frame>, width: int, height: int): seq<byte>
    decreases |frames|
  {
    if frames == [] then [] else ImageBlock(frames[0], width, height) + Images(frames[1..], width, height)
  }

  lemma {:induction false} ImagesSnoc(frames: seq<Frame>, f: Frame, width: int, height: int)
    ensures Images(frames + [f], width, height) == Images(frames, width, height) + ImageBlock(f, width, height)
    decreases |frames|
  {
    if frames == [] {
      assert [f][1..] == [];
    } else {
      assert (frames + [f])[1..] == frames[1..] + [f];
      ImagesSnoc(frames[1..], f, width, height);
    }
  }

  lemma ConcatAssoc(a: seq<byte>, b: seq<byte>, c: seq<byte>)
    ensures a + b + c == a + (b + c)
  {
  }

  lemma ImagesPrefix(frames: seq<Frame>, i: nat, width: int, height: int)
    requires i < |frames|
    ensures Images(frames[..i + 1], width, height) == Images(frames[..i], width, height) + ImageBlock(frames[i], width, height)
  {
    assert frames[..i + 1] == frames[..i] + [frames[i]];
    ImagesSnoc(frames[..i], frames[i], width, height);
  }

  /** `finish()`: header, global colour table, looping extension, the frames, trailer 0x3B. */
  function Stream(width: int, height: int, frames: seq<Frame>): seq<byte>
    requires frames != [] ==> |frames[0].palette| >= PaletteSize
  {
    Header(width, height) + GlobalColorTable(frames) + LoopingExtension() + Images(frames, width, height) + [0x3B]
  }

  /** Every stream starts with the signature "GIF89a" and ends with the trailer 0x3B. */
  lemma StreamBounds(width: int, height: int, frames: seq<Frame>)
    requires frames != [] ==> |frames[0].palette| >= PaletteSize
    ensures var s := Stream(width, height, frames);
      |s| >= 33 && s[..6] == [0x47, 0x49, 0x46, 0x38, 0x39, 0x61] && s[|s| - 1] == 0x3B
  {
    SignatureBytes();
    var s := Stream(width, height, frames);
    assert s[..6] == Header(width, height)[..6];
  }

  // ---------------------------------------------------------------- reading the stream back

  /** A colour table read as triples. */
  function ReadPalette(bs: seq<byte>): seq<Rgb>
    decreases |bs|
  {
    if |bs| < 3 then [] else [Rgb(bs[0], bs[1], bs[2])] + ReadPalette(bs[3..])
  }

  lemma {:induction false} ReadPaletteBytes(palette: seq<Rgb>)
    ensures ReadPalette(PaletteBytes(palette)) == palette
    decreases |palette|
  {
    if palette != [] {
      var bs := PaletteBytes(palette);
      assert bs[3..] == PaletteBytes(palette[1..]);
      ReadPaletteBytes(palette[1..]);
    }
  }

  /** What an image's head and data say: delay, position, size, and the joined data sub-blocks. */
  datatype ImageInfo = ImageInfo(delay: nat, left: nat, top: nat, width: nat, height: nat, data: seq<byte>)

  /** One image as this encoder lays it out, or None. */
  function ReadImage(bs: seq<byte>): (r: Option<Parsed<ImageInfo>>)
    ensures r.Some? ==> |r.value.rest| < |bs|
  {
    if |bs| < 19 || bs[..4] != [0x21, 0xF9, 0x04, 0x00] || bs[6..9] != [0x00, 0x00, 0x2C] || bs[17..19] != [0x00, 0x08] then None
    else
      match ReadBlocks(bs[19..])
      case None => None
      case Some(p) =>
        Some(Parsed(ImageInfo(ReadShort(bs[4], bs[5]), ReadShort(bs[9], bs[10]), ReadShort(bs[11], bs[12]),
                              ReadShort(bs[13], bs[14]), ReadShort(bs[15], bs[16]), p.value), p.rest))
  }

  /** Images up to the trailer, which must be the last byte. */
  function ReadImages(bs: seq<byte>): Option<seq<ImageInfo>>
    decreases |bs|
  {
    if bs == [] then None
    else if bs == [0x3B] then Some([])
    else
      match ReadImage(bs)
      case None => None
      case Some(p) =>
        match ReadImages(p.rest)
        case None => None
        case Some(more) => Some([p.value] + more)
  }

  /** What the header says and what follows it. */
  datatype GifInfo = GifInfo(width: nat, height: nat, palette: seq<Rgb>, images: seq<ImageInfo>)

  /** The number of bytes of the global colour table the flags announce: `3 * 2^(size + 1)` when bit 7 is set. */
  function TableBytes(flags: byte): nat {
    if flags >= 128 then 3 * Pow2(flags % 8 + 1) else 0
  }

  /** A stream of this encoder's shape: header, colour table as announced, looping extension, images, trailer. */
  function ReadGif(bs: seq<byte>): Option<GifInfo> {
    if |bs| < 13 || bs[..6] != WriteString("GIF89a") then None
    else
      var n := TableBytes(bs[10]);
      if |bs| < 13 + n then None
      else
        var afterTable := bs[13 + n..];
        match TakeLiteral(afterTable, LoopingExtension())
        case None => None
        case Some(rest) =>
          match ReadImages(rest)
          case None => None
          case Some(images) =>
            Some(GifInfo(ReadShort(bs[6], bs[7]), ReadShort(bs[8], bs[9]), ReadPalette(bs[13..13 + n]), images))
  }

  /** What reading gives for one frame. */
  function Info(f: Frame, width: int, height: int): ImageInfo {
    ImageInfo((Centiseconds(f.delay) % 65536) as nat, 0, 0, (width % 65536) as nat, (height % 65536) as nat, FrameData(f))
  }

  function Infos(frames: seq<Frame>, width: int, height: int): (r: seq<ImageInfo>)
    ensures |r| == |frames|
  {
    seq(|frames|, i requires 0 <= i < |frames| => Info(frames[i], width, height))
  }

  lemma InfosCons(frames: seq<Frame>, width: int, height: int)
    requires frames != []
    ensures Infos(frames, width, height) == [Info(frames[0], width, height)] + Infos(frames[1..], width, height)
  {
  }

  lemma ReadImageBlock(f: Frame, width: int, height: int, rest: seq<byte>)
    ensures ReadImage(ImageBlock(f, width, height) + rest) == Some(Parsed(Info(f, width, height), rest))
  {
    ReadHeadAndData(f, width, height, FrameData(f), rest);
  }

  /** The five numbers in an image head read back as the delay, (0, 0) and the size, modulo 2^16. */
  lemma HeadShorts(f: Frame, width: int, height: int, bs: seq<byte>)
    requires |bs| >= 19 && bs[..19] == ImageHead(f, width, height)
    ensures ReadShort(bs[4], bs[5]) == (Centiseconds(f.delay) % 65536) as nat
      && ReadShort(bs[9], bs[10]) == 0 && ReadShort(bs[11], bs[12]) == 0
      && ReadShort(bs[13], bs[14]) == (width % 65536) as nat && ReadShort(bs[15], bs[16]) == (height % 65536) as nat
    ensures bs[..4] == [0x21, 0xF9, 0x04, 0x00] && bs[6..9] == [0x00, 0x00, 0x2C] && bs[17..19] == [0x00, 0x08]
  {
    var head := ImageHead(f, width, height);
    assert bs[0] == 0x21 && bs[1] == 0xF9 && bs[2] == 0x04 && bs[3] == 0x00;
    assert bs[..4] == [bs[0], bs[1], bs[2], bs[3]];
    assert bs[6] == 0x00 && bs[7] == 0x00 && bs[8] == 0x2C;
    assert bs[6..9] == [bs[6], bs[7], bs[8]];
    assert bs[17] == 0x00 && bs[18] == 0x08;
    assert bs[17..19] == [bs[17], bs[18]];
    assert bs[4] == head[4] && bs[5] == head[5] && bs[9] == head[9] && bs[10] == head[10];
    assert bs[11] == head[11] && bs[12] == head[12] && bs[13] == head[13] && bs[14] == head[14];
    assert bs[15] == head[15] && bs[16] == head[16];
    WriteShortRoundTrip(Centiseconds(f.delay));
    WriteShortRoundTrip(width);
    WriteShortRoundTrip(height);
  }

  /** An image whose fixed bytes are in place reads as its five numbers and its sub-block data. */
  lemma ReadImageOf(bs: seq<byte>, data: seq<byte>, rest: seq<byte>)
    requires |bs| >= 19 && bs[..4] == [0x21, 0xF9, 0x04, 0x00] && bs[6..9] == [0x00, 0x00, 0x2C] && bs[17..19] == [0x00, 0x08]
    requires ReadBlocks(bs[19..]) == Some(Parsed(data, rest))
    ensures ReadImage(bs) == Some(Parsed(ImageInfo(ReadShort(bs[4], bs[5]), ReadShort(bs[9], bs[10]), ReadShort(bs[11], bs[12]),
                                                   ReadShort(bs[13], bs[14]), ReadShort(bs[15], bs[16]), data), rest))
  {
  }

  /** `ReadImageBlock` for any data in place of the compressed indices. */
  lemma ReadHeadAndData(f: Frame, width: int, height: int, data: seq<byte>, rest: seq<byte>)
    ensures ReadImage(ImageHead(f, width, height) + SubBlocks(data) + [0x00] + rest)
      == Some(Parsed(ImageInfo((Centiseconds(f.delay) % 65536) as nat, 0, 0, (width % 65536) as nat, (height % 65536) as nat, data), rest))
  {
    var head := ImageHead(f, width, height);
    var bs := head + SubBlocks(data) + [0x00] + rest;
    assert bs == head + (SubBlocks(data) + [0x00] + rest);
    assert bs[19..] == SubBlocks(data) + [0x00] + rest;
    assert bs[..19] == head;
    ReadSubBlocks(data, rest);
    HeadShorts(f, width, height, bs);
    ReadImageOf(bs, data, rest);
  }

  lemma {:induction false} ReadImagesBack(frames: seq<Frame>, width: int, height: int)
    ensures ReadImages(Images(frames, width, height) + [0x3B]) == Some(Infos(frames, width, height))
    decreases |frames|
  {
    if frames == [] {
      assert Images(frames, width, height) + [0x3B] == [0x3B];
    } else {
      var more := Images(frames[1..], width, height) + [0x3B];
      var bs := Images(frames, width, height) + [0x3B];
      assert bs == ImageBlock(frames[0], width, height) + more;
      ReadImageBlock(frames[0], width, height, more);
      assert bs != [0x3B] by { assert |bs| > 19; }
      ReadImagesBack(frames[1..], width, height);
      InfosCons(frames, width, height);
    }
  }

  /**
   * A stream with frames whose palettes have 256 entries reads back as the width and
   * height modulo 2^16, the first frame's palette, and per frame its delay in hundredths
   * of a second, the full-size position (0, 0) and its LZW data.
   */
  lemma ReadStream(width: int, height: int, frames: seq<Frame>)
    requires frames != [] && |frames[0].palette| == PaletteSize
    ensures ReadGif(Stream(width, height, frames))
      == Some(GifInfo((width % 65536) as nat, (height % 65536) as nat, frames[0].palette, Infos(frames, width, height)))
  {
    var s := Stream(width, height, frames);
    var tail := Images(frames, width, height) + [0x3B];
    StreamLayout(width, height, frames);
    ReadPaletteBytes(frames[0].palette);
    TakeLiteralAppend(LoopingExtension(), tail);
    ReadImagesBack(frames, width, height);
    SizesAt(s, width, height);
    ReadGifOf(s, frames[0].palette, tail, Infos(frames, width, height));
  }

  /** Where the parts of a stream with frames lie. */
  lemma StreamLayout(width: int, height: int, frames: seq<Frame>)
    requires frames != [] && |frames[0].palette| == PaletteSize
    ensures var s := Stream(width, height, frames);
      |s| >= 13 + 768
      && s[..6] == WriteString("GIF89a")
      && s[6..10] == WriteShort(width) + WriteShort(height) && s[10] == 0xF7
      && s[13..13 + 768] == PaletteBytes(frames[0].palette)
      && s[13 + 768..] == LoopingExtension() + (Images(frames, width, height) + [0x3B])
  {
    var header := Header(width, height);
    assert frames[0].palette[..PaletteSize] == frames[0].palette;
    HeaderLayout(width, height);
    Parts(header, GlobalColorTable(frames), LoopingExtension(), Images(frames, width, height), [0x3B]);
  }

  lemma HeaderLayout(width: int, height: int)
    ensures var hd := Header(width, height);
      hd[..6] == WriteString("GIF89a") && hd[6..10] == WriteShort(width) + WriteShort(height) && hd[10] == 0xF7
  {
    var hd := Header(width, height);
    var sig := WriteString("GIF89a");
    var sizes := WriteShort(width) + WriteShort(height);
    assert hd == sig + sizes + [0xF7, 0x00, 0x00];
  }

  /** Slicing a concatenation of five parts after the second. */
  lemma Parts(a: seq<byte>, b: seq<byte>, c: seq<byte>, d: seq<byte>, e: seq<byte>)
    ensures var s := a + b + c + d + e;
      s[..|a|] == a && s[|a|..|a| + |b|] == b && s[|a| + |b|..] == c + (d + e)
  {
  }

  /** Reading a stream whose parts read back: the header's sizes, the palette and the images. */
  lemma SizesAt(s: seq<byte>, width: int, height: int)
    requires |s| >= 10 && s[6..10] == WriteShort(width) + WriteShort(height)
    ensures ReadShort(s[6], s[7]) == (width % 65536) as nat && ReadShort(s[8], s[9]) == (height % 65536) as nat
  {
    assert s[6] == WriteShort(width)[0] && s[7] == WriteShort(width)[1];
    assert s[8] == WriteShort(height)[0] && s[9] == WriteShort(height)[1];
    WriteShortRoundTrip(width);
    WriteShortRoundTrip(height);
  }

  lemma ReadGifOf(bs: seq<byte>, palette: seq<Rgb>, tail: seq<byte>, images: seq<ImageInfo>)
    requires |bs| >= 13 + 768 && bs[..6] == WriteString("GIF89a") && bs[10] == 0xF7
    requires ReadPalette(bs[13..13 + 768]) == palette
    requires bs[13 + 768..] == LoopingExtension() + tail
    requires TakeLiteral(LoopingExtension() + tail, LoopingExtension()) == Some(tail)
    requires ReadImages(tail) == Some(images)
    ensures ReadGif(bs) == Some(GifInfo(ReadShort(bs[6], bs[7]), ReadShort(bs[8], bs[9]), palette, images))
  {
    Pow2Values();
    assert TableBytes(0xF7) == 768;
  }

  /**
   * With no frame the flags still announce a 768-byte global colour table, but none is
   * written: a reader that follows the flags runs past the end of the stream.
   */
  lemma EmptyStreamUnreadable(width: int, height: int)
    ensures ReadGif(Stream(width, height, [])) == None
  {
    var s := Stream(width, height, []);
    assert |s| == 33;
    assert s[10] == 0xF7;
    Pow2Values();
    assert TableBytes(0xF7) == 768;
  }

  // ---------------------------------------------------------------- the encoder object

  /** `GIFEncoder`: the frame size, the frames added so far, and the delay given to the next frame. */
  class GifEncoder {
    const width: int
    const height: int
    var frames: seq<Frame>
    var delay: int

    /** Every frame carries a full 256-entry palette, as `quantize` makes it. */
    predicate Valid()
      reads this
    {
      forall i :: 0 <= i < |frames| ==> |frames[i].palette| == PaletteSize
    }

    constructor(width: int, height: int)
      ensures this.width == width && this.height == height
      ensures frames == [] && delay == 100 && Valid()
    {
      this.width := width;
      this.height := height;
      frames := [];
      delay := 100;
    }

    /** `setDelay(ms)` */
    method SetDelay(ms: int)
      modifies this
      ensures delay == ms && frames == old(frames)
    {
      delay := ms;
    }

    /** `addFrame`: the frame's pixels quantised and stored with the current delay. */
    method AddFrame(pixels: seq<Pixel>)
      requires Valid()
      modifies this
      ensures Valid() && delay == old(delay)
      ensures frames == old(frames) + [Frame(QuantizeSpec(pixels).palette, QuantizeSpec(pixels).indexed, delay)]
    {
      var palette, indexed := Quantize(pixels);
      QuantizeMeaning(pixels);
      frames := frames + [Frame(palette, indexed, delay)];
    }

    /** `finish()`: the bytes of the whole stream. */
    method Finish() returns (bytes: seq<byte>)
      requires Valid()
      ensures bytes == Stream(width, height, frames)
    {
      bytes := WriteHeader(width, height);
      if |frames| > 0 {
        bytes := WriteColorTable(bytes, frames[0].palette);
      }
      assert bytes == Header(width, height) + GlobalColorTable(frames);
      bytes := WriteLoopingExtension(bytes);
      ghost var prefix := Header(width, height) + GlobalColorTable(frames) + LoopingExtension();
      bytes := WriteFrames(bytes, frames, width, height);
      bytes := bytes + [0x3B];
    }
  }

  /** The frame loop of `finish()`: one image per frame, in order. */
  method WriteFrames(bytes0: seq<byte>, frames: seq<Frame>, width: int, height: int) returns (bytes: seq<byte>)
    ensures bytes == bytes0 + Images(frames, width, height)
  {
    bytes := bytes0;
    var i := 0;
    while i < |frames|
      invariant 0 <= i <= |frames|
      invariant bytes == bytes0 + Images(frames[..i], width, height)
    {
      ghost var done := Images(frames[..i], width, height);
      ghost var block := ImageBlock(frames[i], width, height);
      ImagesPrefix(frames, i, width, height);
      bytes := WriteImage(bytes, frames[i], width, height);
      ConcatAssoc(bytes0, done, block);
      i := i + 1;
    }
    assert frames[..i] == frames;
  }

  /** The header and logical screen descriptor. */
  method WriteHeader(width: int, height: int) returns (bytes: seq<byte>)
    ensures bytes == Header(width, height)
  {
    bytes := [];
    bytes := WriteStringTo(bytes, "GIF89a");
    bytes := bytes + WriteShort(width);
    bytes := bytes + WriteShort(height);
    bytes := bytes + [0xF7, 0x00, 0x00];
  }

  /** The application extension for looping, appended to `bytes0`. */
  method WriteLoopingExtension(bytes0: seq<byte>) returns (bytes: seq<byte>)
    ensures bytes == bytes0 + LoopingExtension()
  {
    bytes := bytes0 + [0x21, 0xFF, 0x0B];
    bytes := WriteStringTo(bytes, "NETSCAPE2.0");
    bytes := bytes + [0x03, 0x01];
    bytes := bytes + WriteShort(0);
    bytes := bytes + [0x00];
  }

  /** The global colour table loop: `for (let i = 0; i < 256; i++) bytes.push(r, g, b)`. */
  method WriteColorTable(bytes0: seq<byte>, palette: seq<Rgb>) returns (bytes: seq<byte>)
    requires |palette| >= PaletteSize
    ensures bytes == bytes0 + PaletteBytes(palette[..PaletteSize])
  {
    bytes := bytes0;
    var i := 0;
    while i < 256
      invariant 0 <= i <= PaletteSize
      invariant bytes == bytes0 + PaletteBytes(palette[..i])
    {
      PaletteBytesSnoc(palette[..i], palette[i]);
      assert palette[..i + 1] == palette[..i] + [palette[i]];
      bytes := bytes + [palette[i].r, palette[i].g, palette[i].b];
      i := i + 1;
    }
  }

  /** The body of the frame loop in `finish()`: head, compressed data in sub-blocks, terminator. */
  method WriteImage(bytes0: seq<byte>, f: Frame, width: int, height: int) returns (bytes: seq<byte>)
    ensures bytes == bytes0 + ImageBlock(f, width, height)
  {
    bytes := WriteImageHead(bytes0, f, width, height);
    var compressed := LzwEncode(f.indexed);
    bytes := WriteSubBlocks(bytes, compressed);
    bytes := bytes + [0x00];
    AppendAssoc(bytes0, ImageHead(f, width, height), SubBlocks(compressed), [0x00]);
  }

  /** The graphic control extension and image descriptor of one frame, appended to `bytes0`. */
  method WriteImageHead(bytes0: seq<byte>, f: Frame, width: int, height: int) returns (bytes: seq<byte>)
    ensures bytes == bytes0 + ImageHead(f, width, height)
  {
    bytes := bytes0 + [0x21, 0xF9, 0x04];
    bytes := bytes + [0x00];
    bytes := bytes + WriteShort(Centiseconds(f.delay));
    bytes := bytes + [0x00];
    bytes := bytes + [0x00];
    bytes := bytes + [0x2C];
    bytes := bytes + WriteShort(0);
    bytes := bytes + WriteShort(0);
    bytes := bytes + WriteShort(width);
    bytes := bytes + WriteShort(height);
    bytes := bytes + [0x00];
    bytes := bytes + [0x08];
  }
}
