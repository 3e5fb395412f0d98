/**
 * The single-file tar archive that the runner copies into a container
 * (`createTarStream`): a 512-byte header laid out as in the "ustar Interchange
 * Format" of POSIX.1 (IEEE Std 1003.1, pax utility) but written without the
 * `ustar` magic, the content padded with zeros to a 512-byte boundary, and two
 * zero blocks that end the archive.
 */
module Tar {
  import opened Wrappers
  import opened Strings
  import opened Bytes

  const BlockSize: nat := 512

  function Zeros(n: nat): (r: seq<byte>)
  {
    seq(n, _ => 0)
  }

  predicate IsAscii(s: string)
  {
    forall i :: 0 <= i < |s| ==> s[i] as int < 128
  }

  /** The bytes `header.write(s, ..., "utf-8")` stores for an ASCII text `s`. */
  function Ascii(s: string): (r: seq<byte>)
    requires IsAscii(s)
    ensures |r| == |s|
  {
    seq(|s|, i requires 0 <= i < |s| => s[i] as int as byte)
  }

  /** `n.toString(8).padStart(width, "0")`. */
  function OctalText(n: nat, width: nat): string
  {
    PadStart(NatToString(n, 8), width, '0')
  }

  lemma OctalTextDigits(n: nat, width: nat)
    ensures forall i :: 0 <= i < |OctalText(n, width)| ==> '0' <= OctalText(n, width)[i] <= '7'
  {
    var t, ds := NatToString(n, 8), Digits(n, 8);
    assert |ds| == |t| && forall k :: 0 <= k < |t| ==> ds[k] < 8 && t[k] == DigitChar(ds[k]);
    PaddedOctalChars(t, ds, width);
  }

  /** Octal digit characters padded with '0' are still octal digit characters. */
  lemma PaddedOctalChars(t: string, ds: seq<nat>, w: nat)
    requires |ds| == |t| && forall k :: 0 <= k < |t| ==> ds[k] < 8 && t[k] == DigitChar(ds[k])
    ensures forall i :: 0 <= i < |PadStart(t, w, '0')| ==> '0' <= PadStart(t, w, '0')[i] <= '7'
  {
    var text := PadStart(t, w, '0');
    forall i | 0 <= i < |text| ensures '0' <= text[i] <= '7' {
      OctalChar(t, ds, w, i);
    }
  }

  /** The bytes of `OctalText(n, width)`. */
  function Octal(n: nat, width: nat): (r: seq<byte>)
    ensures |r| == |OctalText(n, width)|
    ensures forall i :: 0 <= i < |r| ==> 48 <= r[i] <= 55
  {
    OctalTextDigits(n, width);
    Ascii(OctalText(n, width))
  }

  predicate IsOctal(bs: seq<byte>)
  {
    forall i :: 0 <= i < |bs| ==> 48 <= bs[i] <= 55
  }

  /** The number an all-octal-digit field stands for: what a tar reader takes from it. */
  function OctalValue(bs: seq<byte>): nat
    requires IsOctal(bs)
  {
    if bs == [] then 0 else OctalValue(bs[..|bs| - 1]) * 8 + (bs[|bs| - 1] as int - 48)
  }

  // ---------------------------------------------------------------- the fields

  /** "0000644\0": the file mode. */
  const ModeField: seq<byte> := [48, 48, 48, 48, 54, 52, 52, 0]
  /** "0000000\0": the owner and group ids. */
  const IdField: seq<byte> := [48, 48, 48, 48, 48, 48, 48, 0]
  /** Eight spaces: the checksum field while the checksum is summed. */
  const BlankChecksum: seq<byte> := [32, 32, 32, 32, 32, 32, 32, 32]
  /** '0': a regular file. */
  const RegularType: byte := 48

  /** `n.toString(8).padStart(11, "0") + "\0"`: the size and modification-time fields. */
  function NumberField(n: nat): seq<byte>
  {
    Octal(n, 11) + [0]
  }

  /** `checksum.toString(8).padStart(6, "0") + "\0 "`. */
  function ChecksumField(sum: nat): (r: seq<byte>)
    ensures |r| >= 8
  {
    Octal(sum, 6) + [0, 32]
  }

  /** A field of `width` bytes after `write` of `data` into zeros: `data` cut to the width, zero-filled. */
  function Field(data: seq<byte>, width: nat): (r: seq<byte>)
    ensures |r| == width
    ensures forall k :: 0 <= k < width ==> r[k] == FieldByte(data, k)
  {
    if |data| >= width then data[..width] else data + Zeros(width - |data|)
  }

  /** Byte `k` of `Field(data, width)`, for `k` below the width. */
  function FieldByte(data: seq<byte>, k: nat): byte
  {
    if k < |data| then data[k] else 0
  }

  /**
   * Byte `i` of the header before the checksum is filled in, given the bytes written
   * for the name, the size and the modification time.
   */
  function UnsignedByte(name: seq<byte>, sizeText: seq<byte>, mtimeText: seq<byte>, i: nat): byte
  {
    if i < 100 then FieldByte(name, i)
    else if i < 108 then FieldByte(ModeField, i - 100)
    else if i < 116 then FieldByte(IdField, i - 108)
    else if i < 124 then FieldByte(IdField, i - 116)
    else if i < 136 then FieldByte(sizeText, i - 124)
    else if i < 148 then FieldByte(mtimeText, i - 136)
    else if i < 156 then 32
    else if i == 156 then RegularType
    else 0
  }

  function UnsignedHeader(name: seq<byte>, sizeText: seq<byte>, mtimeText: seq<byte>): (r: seq<byte>)
    ensures |r| == BlockSize
  {
    seq(BlockSize, i requires 0 <= i < BlockSize => UnsignedByte(name, sizeText, mtimeText, i))
  }

  /** The sum of a byte sequence, as the header loop accumulates it. */
  function Sum(s: seq<byte>): nat
  {
    if s == [] then 0 else Sum(s[..|s| - 1]) + s[|s| - 1] as int
  }

  /** The header for the given field texts: the unsigned header with its checksum field overwritten. */
  function HeaderOf(name: seq<byte>, sizeText: seq<byte>, mtimeText: seq<byte>): (r: seq<byte>)
    ensures |r| == BlockSize
  {
    var u := UnsignedHeader(name, sizeText, mtimeText);
    var c := ChecksumField(Sum(u));
    seq(BlockSize, i requires 0 <= i < BlockSize => if 148 <= i < 156 then c[i - 148] else u[i])
  }

  /** The header of a file named `name` of `size` bytes modified at `mtime` seconds. */
  function Header(name: seq<byte>, size: nat, mtime: nat): (r: seq<byte>)
    ensures |r| == BlockSize
  {
    HeaderOf(name, NumberField(size), NumberField(mtime))
  }

  /** `512 - n % 512` zero bytes, or none when that is a whole block. */
  function Padding(n: nat): seq<byte>
  {
    var p := BlockSize - n % BlockSize;
    if p < BlockSize then Zeros(p) else []
  }

  /** The archive for one file named `name` with `content`, modified at `mtime` seconds. */
  function Archive(name: seq<byte>, content: seq<byte>, mtime: nat): (r: seq<byte>)
    ensures |r| >= 3 * BlockSize + |content|
  {
    Header(name, |content|, mtime) + Body(content)
  }

  /** What follows the header: the content, its padding and the two end blocks. */
  function Body(content: seq<byte>): seq<byte>
  {
    content + Padding(|content|) + Zeros(2 * BlockSize)
  }

  // ---------------------------------------------------------------- the builder

  /** `buf.write(text, offset, length)`: at most `length` bytes of `text` at `offset`. */
  method Write(buf: array<byte>, text: seq<byte>, offset: nat, length: nat) returns (written: nat)
    requires offset + length <= buf.Length
    modifies buf
    ensures written == if |text| < length then |text| else length
    ensures forall j :: 0 <= j < buf.Length ==>
      buf[j] == if offset <= j < offset + written then text[j - offset] else old(buf[j])
  {
    written := if |text| < length then |text| else length;
    var i := 0;
    while i < written
      invariant 0 <= i <= written
      invariant forall j :: 0 <= j < buf.Length ==>
        buf[j] == if offset <= j < offset + i then text[j - offset] else old(buf[j])
    {
      buf[offset + i] := text[i];
      i := i + 1;
    }
  }

  /** Byte `i` of the unsigned header once the fields ending before `upto` are written. */
  function PartialByte(name: seq<byte>, sizeText: seq<byte>, mtimeText: seq<byte>, i: nat, upto: nat): byte
  {
    if i < upto then UnsignedByte(name, sizeText, mtimeText, i) else 0
  }

  /** The successive `header.write` calls that fill every field except the checksum. */
  method FillHeader(header: array<byte>, name: seq<byte>, sizeText: seq<byte>, mtimeText: seq<byte>)
    requires header.Length == BlockSize
    requires forall j :: 0 <= j < BlockSize ==> header[j] == 0
    modifies header
    ensures header[..] == UnsignedHeader(name, sizeText, mtimeText)
  {
    var written := Write(header, name, 0, 100);
    assert forall j :: 0 <= j < BlockSize ==> header[j] == PartialByte(name, sizeText, mtimeText, j, 100);
    written := Write(header, ModeField, 100, 8);
    assert forall j :: 0 <= j < BlockSize ==> header[j] == PartialByte(name, sizeText, mtimeText, j, 108);
    written := Write(header, IdField, 108, 8);
    assert forall j :: 0 <= j < BlockSize ==> header[j] == PartialByte(name, sizeText, mtimeText, j, 116);
    written := Write(header, IdField, 116, 8);
    assert forall j :: 0 <= j < BlockSize ==> header[j] == PartialByte(name, sizeText, mtimeText, j, 124);
    written := Write(header, sizeText, 124, 12);
    assert forall j :: 0 <= j < BlockSize ==> header[j] == PartialByte(name, sizeText, mtimeText, j, 136);
    written := Write(header, mtimeText, 136, 12);
    assert forall j :: 0 <= j < BlockSize ==> header[j] == PartialByte(name, sizeText, mtimeText, j, 148);
    written := Write(header, BlankChecksum, 148, 8);
    assert forall j :: 0 <= j < BlockSize ==> header[j] == PartialByte(name, sizeText, mtimeText, j, 156);
    written := Write(header, [RegularType], 156, 1);
    assert forall j :: 0 <= j < BlockSize ==> header[j] == PartialByte(name, sizeText, mtimeText, j, 157);
  }

  /** The checksum loop: the sum of all header bytes. */
  method ChecksumOf(header: array<byte>) returns (checksum: nat)
    ensures checksum == Sum(header[..])
  {
    checksum := 0;
    for i := 0 to header.Length
      invariant checksum == Sum(header[..i])
    {
      assert header[..i + 1][..i] == header[..i];
      checksum := checksum + header[i] as int;
    }
    assert header[..header.Length] == header[..];
  }

  /** The header buffer of `createTarStream`: allocated zeroed, filled, summed, then signed. */
  method BuildHeader(name: seq<byte>, sizeText: seq<byte>, mtimeText: seq<byte>) returns (header: seq<byte>)
    ensures header == HeaderOf(name, sizeText, mtimeText)
  {
    var buf := new byte[BlockSize](_ => 0);
    FillHeader(buf, name, sizeText, mtimeText);
    var checksum := ChecksumOf(buf);
    var written := Write(buf, ChecksumField(checksum), 148, 8);
    header := buf[..];
    assert header == HeaderOf(name, sizeText, mtimeText);
  }

  /** `createTarStream(filename, content)`, with `Date.now()` passed in as `nowMs`. */
  method CreateTarStream(name: seq<byte>, content: seq<byte>, nowMs: nat) returns (tar: seq<byte>)
    ensures tar == Archive(name, content, nowMs / 1000)
  {
    var header := BuildHeader(name, NumberField(|content|), NumberField(nowMs / 1000));
    var padding := BlockSize - |content| % BlockSize;
    var padded := content + if padding < BlockSize then Zeros(padding) else [];
    tar := header + (padded + Zeros(2 * BlockSize));
  }

  // ---------------------------------------------------------------- what the archive holds

  /** The length is one header block, the content rounded up to whole blocks, and two end blocks. */
  lemma ArchiveLength(name: seq<byte>, content: seq<byte>, mtime: nat)
    ensures |Archive(name, content, mtime)| ==
      BlockSize + BlockSize * ((|content| + BlockSize - 1) / BlockSize) + 2 * BlockSize
    ensures |Archive(name, content, mtime)| % BlockSize == 0
    ensures |content| % BlockSize == 0 ==>
      |Archive(name, content, mtime)| == BlockSize + |content| + 2 * BlockSize
  {
    var n := |content|;
    var q, r := n / BlockSize, n % BlockSize;
    var len := |Archive(name, content, mtime)|;
    assert n == BlockSize * q + r;
    assert len == BlockSize + n + |Padding(n)| + 2 * BlockSize;
    if r == 0 {
      assert |Padding(n)| == 0;
      BlockDivision(n + BlockSize - 1, q, BlockSize - 1);
      BlockDivision(len, q + 3, 0);
    } else {
      assert |Padding(n)| == BlockSize - r;
      BlockDivision(n + BlockSize - 1, q + 1, r - 1);
      BlockDivision(len, q + 4, 0);
    }
  }

  lemma BlockDivision(x: int, q: int, r: int)
    requires 0 <= r < BlockSize && x == BlockSize * q + r
    ensures x / BlockSize == q && x % BlockSize == r
  {
  }

  /** Bytes 512 .. 512 + n are the content; everything after it is zero. */
  lemma ArchiveBody(name: seq<byte>, content: seq<byte>, mtime: nat)
    ensures |Archive(name, content, mtime)| >= BlockSize + |content|
    ensures Archive(name, content, mtime)[BlockSize..BlockSize + |content|] == content
    ensures forall i :: BlockSize + |content| <= i < |Archive(name, content, mtime)| ==>
      Archive(name, content, mtime)[i] == 0
  {
    var h := Header(name, |content|, mtime);
    var a := Archive(name, content, mtime);
    var tail := Padding(|content|) + Zeros(2 * BlockSize);
    assert forall k :: 0 <= k < |tail| ==> tail[k] == 0;
    assert a == (h + content) + tail;
    assert a[BlockSize..BlockSize + |content|] == content;
    forall i | BlockSize + |content| <= i < |a| ensures a[i] == 0 {
      assert a[i] == tail[i - BlockSize - |content|];
    }
  }

  /** The first block of the archive is the header. */
  lemma ArchiveHeader(name: seq<byte>, content: seq<byte>, mtime: nat)
    ensures |Archive(name, content, mtime)| >= BlockSize
    ensures Archive(name, content, mtime)[..BlockSize] == Header(name, |content|, mtime)
  {
  }

  /** A header byte outside the checksum field is the byte the field writes left there. */
  lemma HeaderByte(name: seq<byte>, sizeText: seq<byte>, mtimeText: seq<byte>, i: nat)
    requires i < BlockSize && !(148 <= i < 156)
    ensures HeaderOf(name, sizeText, mtimeText)[i] == UnsignedByte(name, sizeText, mtimeText, i)
  {
  }

  /** A slice of a header is a field when it holds the field's bytes one by one. */
  lemma FieldSlice(h: seq<byte>, offset: nat, data: seq<byte>)
    requires offset + |data| <= |h|
    requires forall k :: 0 <= k < |data| ==> h[offset + k] == data[k]
    ensures h[offset..offset + |data|] == data
  {
  }

  /** Each written field holds its text cut to the field width and zero-filled. */
  lemma HeaderFields(name: seq<byte>, sizeText: seq<byte>, mtimeText: seq<byte>)
    ensures var h := HeaderOf(name, sizeText, mtimeText);
      && h[..100] == Field(name, 100)
      && h[124..136] == Field(sizeText, 12)
      && h[136..148] == Field(mtimeText, 12)
  {
    var h := HeaderOf(name, sizeText, mtimeText);
    var f0, f1, f2 := Field(name, 100), Field(sizeText, 12), Field(mtimeText, 12);
    forall k | 0 <= k < 100 ensures h[k] == f0[k] {
      HeaderByte(name, sizeText, mtimeText, k);
    }
    forall k | 0 <= k < 12 ensures h[124 + k] == f1[k] && h[136 + k] == f2[k] {
      HeaderByte(name, sizeText, mtimeText, 124 + k);
      HeaderByte(name, sizeText, mtimeText, 136 + k);
    }
    FieldSlice(h, 0, f0);
    FieldSlice(h, 124, f1);
    FieldSlice(h, 136, f2);
  }

  /** Mode, owner and group are fixed texts; the type flag is '0'; the rest of the block is zero. */
  lemma HeaderFixed(name: seq<byte>, sizeText: seq<byte>, mtimeText: seq<byte>)
    ensures var h := HeaderOf(name, sizeText, mtimeText);
      && h[100..108] == ModeField && h[108..116] == IdField && h[116..124] == IdField
      && h[156] == RegularType
      && forall i :: 157 <= i < BlockSize ==> h[i] == 0
  {
    var h := HeaderOf(name, sizeText, mtimeText);
    forall k | 0 <= k < 8 ensures h[100 + k] == ModeField[k] && h[108 + k] == IdField[k] && h[116 + k] == IdField[k] {
      HeaderByte(name, sizeText, mtimeText, 100 + k);
      HeaderByte(name, sizeText, mtimeText, 108 + k);
      HeaderByte(name, sizeText, mtimeText, 116 + k);
    }
    FieldSlice(h, 100, ModeField);
    FieldSlice(h, 108, IdField);
    FieldSlice(h, 116, IdField);
    HeaderByte(name, sizeText, mtimeText, 156);
    forall i | 157 <= i < BlockSize ensures h[i] == 0 {
      HeaderByte(name, sizeText, mtimeText, i);
    }
  }

  /** Blanking the checksum field of the header gives back the header the checksum was summed over. */
  lemma BlankedIsUnsigned(name: seq<byte>, sizeText: seq<byte>, mtimeText: seq<byte>)
    ensures Blanked(HeaderOf(name, sizeText, mtimeText)) == UnsignedHeader(name, sizeText, mtimeText)
  {
    var h := HeaderOf(name, sizeText, mtimeText);
    var u := UnsignedHeader(name, sizeText, mtimeText);
    forall i | 0 <= i < BlockSize ensures Blanked(h)[i] == u[i] {
      BlankedByte(h, u, i);
    }
  }

  /** Blanking the checksum of a header puts back the eight spaces it was summed with. */
  lemma BlankedByte(h: seq<byte>, u: seq<byte>, i: nat)
    requires |h| == |u| == BlockSize && i < BlockSize
    requires forall k :: 0 <= k < BlockSize && !(148 <= k < 156) ==> h[k] == u[k]
    requires forall k :: 148 <= k < 156 ==> u[k] == 32
    ensures Blanked(h)[i] == u[i]
  {
    var b := Blanked(h);
    var mid := h[..148] + BlankChecksum;
    assert b == mid + h[156..] && |mid| == 156;
    if i < 148 {
      assert b[i] == mid[i] == h[..148][i] == h[i];
    } else if i < 156 {
      assert b[i] == mid[i] == BlankChecksum[i - 148] == 32;
    } else {
      assert b[i] == h[156..][i - 156] == h[i];
    }
  }


  /** The checksum field holds the first eight bytes of the checksum text of the unsigned header. */
  lemma ChecksumSlice(name: seq<byte>, sizeText: seq<byte>, mtimeText: seq<byte>)
    ensures HeaderOf(name, sizeText, mtimeText)[148..156] ==
      ChecksumField(Sum(UnsignedHeader(name, sizeText, mtimeText)))[..8]
  {
    var h := HeaderOf(name, sizeText, mtimeText);
    var c := ChecksumField(Sum(UnsignedHeader(name, sizeText, mtimeText)))[..8];
    forall k | 0 <= k < 8 ensures h[148 + k] == c[k] {
    }
    FieldSlice(h, 148, c);
  }

  /** Any 512 bytes sum to less than 8^6, so the checksum text is six digits, a NUL and a space. */
  lemma SumFits(u: seq<byte>)
    requires |u| == BlockSize
    ensures Sum(u) < MaxOctal6
    ensures |Octal(Sum(u), 6)| == 6
    ensures ChecksumField(Sum(u))[..8] == Octal(Sum(u), 6) + [0, 32]
  {
    SumBound(u);
    assert Pow(8, 6) == MaxOctal6;
    OctalWidth(Sum(u), 6);
  }

  /** 8^6: every 512-byte header sums to less, since 512 * 255 < 8^6. */
  const MaxOctal6: nat := 262_144

  /**
   * The checksum field holds the six-digit octal sum of the header taken with that
   * field set to spaces, then a NUL and a space; the sum always fits in six digits.
   */
  lemma HeaderChecksum(name: seq<byte>, sizeText: seq<byte>, mtimeText: seq<byte>)
    ensures var h := HeaderOf(name, sizeText, mtimeText);
      var sum := Sum(Blanked(h));
      && sum < MaxOctal6
      && |Octal(sum, 6)| == 6
      && h[148..156] == Octal(sum, 6) + [0, 32]
  {
    BlankedIsUnsigned(name, sizeText, mtimeText);
    SumFits(UnsignedHeader(name, sizeText, mtimeText));
    ChecksumSlice(name, sizeText, mtimeText);
  }

  /** Below 8^11 a number field is the number in 11 octal digits and a NUL, and reads back as the number. */
  lemma NumberFieldText(n: nat)
    requires n < MaxOctal11
    ensures |Octal(n, 11)| == 11
    ensures Field(NumberField(n), 12) == NumberField(n) == Octal(n, 11) + [0]
    ensures IsOctal(Octal(n, 11)) && OctalValue(Octal(n, 11)) == n
  {
    OctalWidth11(n);
    FieldExact(NumberField(n), 12);
    OctalRoundTrip(n, 11);
  }

  lemma FieldExact(data: seq<byte>, width: nat)
    requires |data| == width
    ensures Field(data, width) == data
  {
  }

  lemma {:induction false} SumBound(s: seq<byte>)
    ensures Sum(s) <= 255 * |s|
  {
    if s != [] {
      SumBound(s[..|s| - 1]);
    }
  }

  /** 8^11: the first size that no longer fits the 11 octal digits of the size field. */
  const MaxOctal11: nat := 8_589_934_592

  lemma OctalWidth11(n: nat)
    requires n < MaxOctal11
    ensures |Octal(n, 11)| == 11
  {
    assert Pow(8, 11) == MaxOctal11;
    OctalWidth(n, 11);
  }

  /** A number below 8^w is written in exactly `w` octal digits after padding. */
  lemma OctalWidth(n: nat, w: nat)
    requires w >= 1 && n < Pow(8, w)
    ensures |Octal(n, w)| == w
  {
    DigitsLength(n, 8, w);
  }

  /** `OctalValue` reads back what `Octal` writes. */
  lemma OctalRoundTrip(n: nat, w: nat)
    ensures OctalValue(Octal(n, w)) == n
  {
    var bs := Octal(n, w);
    var ds := Digits(n, 8);
    OctalValueDigits(bs);
    OctalDigitValues(n, w);
    DigitsValueLeadingZeros(|bs| - |ds|, ds, 8);
    DigitsRoundTrip(n, 8);
  }

  /** The digit values of `Octal(n, w)`: leading zeros, then the octal digits of `n`. */
  lemma OctalDigitValues(n: nat, w: nat)
    ensures var bs := Octal(n, w); var ds := Digits(n, 8);
      |bs| >= |ds| &&
      seq(|bs|, i requires 0 <= i < |bs| => (bs[i] as int - 48) as nat) == seq(|bs| - |ds|, _ => 0) + ds
  {
    var t := NatToString(n, 8);
    assert |Digits(n, 8)| == |t| && forall k :: 0 <= k < |t| ==> Digits(n, 8)[k] < 8 && t[k] == DigitChar(Digits(n, 8)[k]);
    ValuesOfPadded(t, Digits(n, 8), w);
  }

  /** The digit values of the bytes of a padded octal text, given the digits of the unpadded text. */
  lemma ValuesOfPadded(t: string, ds: seq<nat>, w: nat)
    requires |ds| == |t| && forall k :: 0 <= k < |t| ==> ds[k] < 8 && t[k] == DigitChar(ds[k])
    ensures IsAscii(PadStart(t, w, '0'))
    ensures forall i :: 0 <= i < |Ascii(PadStart(t, w, '0'))| ==> Ascii(PadStart(t, w, '0'))[i] >= 48
    ensures var bs := Ascii(PadStart(t, w, '0'));
      |bs| >= |ds| &&
      seq(|bs|, i requires 0 <= i < |bs| => (bs[i] as int - 48) as nat) == seq(|bs| - |ds|, _ => 0) + ds
  {
    var text := PadStart(t, w, '0');
    forall i | 0 <= i < |text| ensures 48 <= text[i] as int < 128 {
      OctalChar(t, ds, w, i);
    }
    var bs := Ascii(text);
    forall i | 0 <= i < |bs| ensures bs[i] >= 48 {
      assert bs[i] == text[i] as int as byte;
    }
    var z := |bs| - |ds|;
    var values := seq(|bs|, i requires 0 <= i < |bs| => (bs[i] as int - 48) as nat);
    var expected: seq<nat> := seq(z, _ => 0) + ds;
    forall i | 0 <= i < |bs| ensures values[i] == expected[i] {
      OctalChar(t, ds, w, i);
      assert bs[i] == text[i] as int as byte;
      if i < z {
        assert expected[i] == 0;
      } else {
        assert expected[i] == ds[i - z];
      }
    }
    assert values == expected;
  }

  /** One character of the padded octal text: a padding '0', or the character of its digit. */
  lemma OctalChar(t: string, ds: seq<nat>, w: nat, i: nat)
    requires |ds| == |t| && forall k :: 0 <= k < |t| ==> ds[k] < 8 && t[k] == DigitChar(ds[k])
    requires i < |PadStart(t, w, '0')|
    ensures var text, z := PadStart(t, w, '0'), |PadStart(t, w, '0')| - |t|;
      text[i] as int - 48 == if i < z then 0 else ds[i - z]
  {
    var z := |PadStart(t, w, '0')| - |t|;
    if i >= z {
      PaddedChar(t, w, '0', i);
      var k := i - z;
      assert ds[k] < 8 && t[k] == DigitChar(ds[k]);
    }
  }

  /** A character of `s.padStart(w, c)` after the padding is the character of `s` below it. */
  lemma PaddedChar(s: string, w: nat, c: char, i: nat)
    requires |PadStart(s, w, c)| - |s| <= i < |PadStart(s, w, c)|
    ensures PadStart(s, w, c)[i] == s[i - (|PadStart(s, w, c)| - |s|)]
  {
    if |s| < w {
      var pad := seq(w - |s|, _ => c);
      assert PadStart(s, w, c) == pad + s;
      assert (pad + s)[i] == s[i - |pad|];
    }
  }



  lemma {:induction false} OctalValueDigits(bs: seq<byte>)
    requires IsOctal(bs)
    ensures OctalValue(bs) == DigitsValue(seq(|bs|, i requires 0 <= i < |bs| => (bs[i] as int - 48) as nat), 8)
  {
    var values := seq(|bs|, i requires 0 <= i < |bs| => (bs[i] as int - 48) as nat);
    if bs != [] {
      var init := bs[..|bs| - 1];
      OctalValueDigits(init);
      assert values[..|bs| - 1] == seq(|init|, i requires 0 <= i < |init| => (init[i] as int - 48) as nat);
    }
  }

  // ---------------------------------------------------------------- reading the archive back

  /** One archive member: its name and its content. */
  datatype Member = Member(name: seq<byte>, content: seq<byte>)

  /** A NUL-terminated field up to its first NUL. */
  function UntilNul(bs: seq<byte>): (r: seq<byte>)
    ensures |r| <= |bs| && 0 !in r
  {
    if bs == [] || bs[0] == 0 then [] else [bs[0]] + UntilNul(bs[1..])
  }

  /** A header with its checksum field replaced by spaces, as the checksum is defined over. */
  function Blanked(h: seq<byte>): seq<byte>
    requires |h| == BlockSize
  {
    h[..148] + BlankChecksum + h[156..]
  }

  /**
   * A reader for the first member of an archive: it refuses a header whose checksum
   * does not match, and returns the name and the number of content bytes the size
   * field announces.
   */
  function Extract(tar: seq<byte>): (r: Option<Member>)
    ensures r.Some? ==> |r.value.name| <= 100 && 0 !in r.value.name
    ensures r.Some? ==>
      |tar| >= BlockSize + |r.value.content| && r.value.content == tar[BlockSize..BlockSize + |r.value.content|]
  {
    if |tar| < BlockSize then None
    else
      var h := tar[..BlockSize];
      var chk, size := h[148..154], h[124..135];
      if !IsOctal(chk) || OctalValue(chk) != Sum(Blanked(h)) then None
      else if !IsOctal(size) || |tar| < BlockSize + OctalValue(size) then None
      else Some(Member(UntilNul(h[..100]), tar[BlockSize..BlockSize + OctalValue(size)]))
  }

  lemma {:induction false} UntilNulPadded(name: seq<byte>, z: nat)
    requires 0 !in name
    ensures UntilNul(name + Zeros(z)) == name
  {
    if name == [] {
      assert z > 0 ==> (name + Zeros(z))[0] == 0;
    } else {
      UntilNulPadded(name[1..], z);
      assert (name + Zeros(z))[1..] == name[1..] + Zeros(z);
    }
  }

  lemma OctalIsOctal(n: nat, width: nat)
    ensures IsOctal(Octal(n, width))
  {
  }

  /** The reader on any block whose name, size and checksum fields are laid out as the builder lays them out. */
  lemma ExtractBlock(h: seq<byte>, body: seq<byte>, name: seq<byte>, sizeText: seq<byte>, n: nat, checksumText: seq<byte>)
    requires |h| == BlockSize
    requires |name| <= 100 && 0 !in name && h[..100] == Field(name, 100)
    requires |sizeText| == 12 && IsOctal(sizeText[..11]) && OctalValue(sizeText[..11]) == n
    requires h[124..136] == Field(sizeText, 12)
    requires |checksumText| == 6 && IsOctal(checksumText) && OctalValue(checksumText) == Sum(Blanked(h))
    requires h[148..156] == checksumText + [0, 32]
    requires n <= |body|
    ensures Extract(h + body) == Some(Member(name, body[..n]))
  {
    var a := h + body;
    assert a[..BlockSize] == h;
    assert a[BlockSize..BlockSize + n] == body[..n];
    assert h[148..154] == checksumText by {
      assert h[148..154] == h[148..156][..6];
    }
    FieldExact(sizeText, 12);
    assert h[124..135] == sizeText[..11] by {
      assert h[124..135] == h[124..136][..11];
    }
    assert Field(name, 100) == name + Zeros(100 - |name|);
    UntilNulPadded(name, 100 - |name|);
  }

  /** The reader on any header the builder lays out, over abstract size and time texts. */
  lemma ExtractHeaderOf(name: seq<byte>, sizeText: seq<byte>, mtimeText: seq<byte>, body: seq<byte>, n: nat)
    requires |name| <= 100 && 0 !in name
    requires |sizeText| == 12 && IsOctal(sizeText[..11]) && OctalValue(sizeText[..11]) == n
    requires n <= |body|
    ensures Extract(HeaderOf(name, sizeText, mtimeText) + body) == Some(Member(name, body[..n]))
  {
    HeaderFields(name, sizeText, mtimeText);
    HeaderChecksum(name, sizeText, mtimeText);
    var h := HeaderOf(name, sizeText, mtimeText);
    OctalRoundTrip(Sum(Blanked(h)), 6);
    OctalIsOctal(Sum(Blanked(h)), 6);
    ExtractBlock(h, body, name, sizeText, n, Octal(Sum(Blanked(h)), 6));
  }

  /**
   * Round trip: a reader recovers the name and the content of every archive the
   * builder makes, for a NUL-free name of at most 100 bytes and content below 8^11 bytes.
   */
  lemma ExtractArchive(name: seq<byte>, content: seq<byte>, mtime: nat)
    requires |name| <= 100 && 0 !in name
    requires |content| < MaxOctal11
    ensures Extract(Archive(name, content, mtime)) == Some(Member(name, content))
  {
    NumberFieldReads(|content|);
    BodyPrefix(content);
    ExtractHeaderOf(name, NumberField(|content|), NumberField(mtime), Body(content), |content|);
  }

  /** The first eleven bytes of a number field read back as the number. */
  lemma NumberFieldReads(n: nat)
    requires n < MaxOctal11
    ensures |NumberField(n)| == 12
    ensures IsOctal(NumberField(n)[..11]) && OctalValue(NumberField(n)[..11]) == n
  {
    NumberFieldText(n);
    assert NumberField(n)[..11] == Octal(n, 11);
  }

  lemma BodyPrefix(content: seq<byte>)
    ensures |content| <= |Body(content)| && Body(content)[..|content|] == content
  {
  }
}
