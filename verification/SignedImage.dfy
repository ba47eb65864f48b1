/** Comparing a signed executable with its unsigned candidate, chunk by chunk with the fields
    that signing rewrites blanked out on both sides. */
module SignedImage {
  import opened Wrappers
  import opened Utf8
  import opened LittleEndian

  const HEADER_READ := 1024 * 1024
  const CHUNK := 65536

  type Bytes = seq<byte>

  function Number(data: Bytes, at: nat, width: nat): nat
    requires at + width <= |data|
  {
    Decode(data[at..at + width])
  }

  /** `pe_offsets`: where the checksum and the security directory entry are, when the header is
      that of an accepted image. */
  function Offsets(data: Bytes, allowX86: bool): (r: Option<(nat, nat)>)
    ensures r.Some? ==> 60 < r.value.0 && r.value.0 + 4 <= r.value.1 && r.value.1 + 8 <= |data|
  {
    if |data| < 64 || data[0] != 0x4D || data[1] != 0x5A then None
    else
      var pe := Number(data, 60, 4);
      if pe + 176 > |data| || data[pe..pe + 4] != [0x50, 0x45, 0, 0] then None
      else
        var optional := pe + 24;
        var magic, machine := Number(data, optional, 2), Number(data, pe + 4, 2);
        var x86 := allowX86 && magic == 0x10b && machine == 0x14c;
        if !x86 && !(magic == 0x20b && machine == 0x8664) then None
        else
          var directories := optional + if x86 then 96 else 112;
          if Number(data, pe + 20, 2) < directories - optional + 40 || Number(data, directories - 4, 4) < 5 then None
          else Some((optional + 64, directories + 4 * 8))
  }

  // ----- the fields of the optional header

  /** Widths of consecutive fields, in bytes. */
  datatype Fields = End | Then(width: nat, rest: Fields)

  function Total(fields: Fields): nat {
    match fields
    case End => 0
    case Then(width, rest) => width + Total(rest)
  }

  /** From the magic number to the base of code: the versions of the linker are single bytes. */
  const STANDARD := Then(2, Then(1, Then(1, Then(4, Then(4, Then(4, Then(4, Then(4, End))))))))

  /** The base of data, which only the narrow format has, and the image base. */
  function Bases(wide: bool): Fields { if wide then Then(8, End) else Then(4, Then(4, End)) }

  /** Two alignments, six version numbers, a reserved word, and the sizes of image and headers. */
  const VERSIONS :=
    Then(4, Then(4, Then(2, Then(2, Then(2, Then(2, Then(2, Then(2, Then(4, Then(4, Then(4, End)))))))))))

  /** The checksum, the subsystem and the characteristics of the image. */
  const CHECKSUM := Then(4, Then(2, Then(2, End)))

  /** How much stack and heap is reserved and committed. */
  function Sizes(wide: bool): Fields {
    if wide then Then(8, Then(8, Then(8, Then(8, End)))) else Then(4, Then(4, Then(4, Then(4, End))))
  }

  /** The loader flags; the count of directories stands behind them, and then the directories. */
  const FLAGS := Then(4, End)
  const COUNT := Then(4, End)

  function ChecksumPlace(wide: bool): nat { Total(STANDARD) + Total(Bases(wide)) + Total(VERSIONS) }

  function CountPlace(wide: bool): nat { ChecksumPlace(wide) + Total(CHECKSUM) + Total(Sizes(wide)) + Total(FLAGS) }

  function DirectoriesPlace(wide: bool): nat { CountPlace(wide) + Total(COUNT) }

  lemma OneField(width: nat, rest: Fields)
    ensures Total(Then(width, rest)) == width + Total(rest)
  {
  }

  lemma FourFields(a: nat, b: nat, c: nat, d: nat, rest: Fields)
    ensures Total(Then(a, Then(b, Then(c, Then(d, rest))))) == a + b + c + d + Total(rest)
  {
    OneField(a, Then(b, Then(c, Then(d, rest))));
    OneField(b, Then(c, Then(d, rest)));
    OneField(c, Then(d, rest));
    OneField(d, rest);
  }

  lemma StandardFields()
    ensures Total(STANDARD) == 24 && Total(FLAGS) == Total(COUNT) == 4 && Total(CHECKSUM) == 8
  {
    hide Total;
    NoFields();
    FourFields(4, 4, 4, 4, End);
    FourFields(2, 1, 1, 4, Then(4, Then(4, Then(4, Then(4, End)))));
    OneField(4, End);
    OneField(2, End);
    OneField(2, Then(2, End));
    OneField(4, Then(2, Then(2, End)));
  }

  lemma VersionFields()
    ensures Total(VERSIONS) == 32
  {
    hide Total;
    NoFields();
    OneField(4, End);
    OneField(4, Then(4, End));
    OneField(4, Then(4, Then(4, End)));
    FourFields(2, 2, 2, 2, Then(4, Then(4, Then(4, End))));
    FourFields(4, 4, 2, 2, Then(2, Then(2, Then(2, Then(2, Then(4, Then(4, Then(4, End))))))));
  }

  lemma FormatFields(wide: bool)
    ensures Total(Bases(wide)) == 8 && Total(Sizes(wide)) == if wide then 32 else 16
  {
    hide Total;
    NoFields();
    OneField(8, End);
    OneField(4, End);
    OneField(4, Then(4, End));
    FourFields(8, 8, 8, 8, End);
    FourFields(4, 4, 4, 4, End);
  }

  lemma NoFields()
    ensures Total(End) == 0
  {
  }

  /** The checksum has one place in both formats, the directories and their count another in each. */
  lemma Places(wide: bool)
    ensures ChecksumPlace(wide) == 64
    ensures DirectoriesPlace(wide) == if wide then 112 else 96
    ensures CountPlace(wide) == DirectoriesPlace(wide) - 4
  {
    hide Total;
    StandardFields();
    VersionFields();
    FormatFields(wide);
  }

  /** Which directory holds the certificate table. */
  const SECURITY := 4
  const DIRECTORY_WIDTH := 8

  /** The image has a header of one of the accepted formats, long enough for the certificate
      directory, that counts it. */
  ghost predicate Accepted(data: Bytes, allowX86: bool, wide: bool) {
    && |data| >= 64 && data[..2] == [0x4D, 0x5A]
    && var pe := Number(data, 60, 4);
       && pe + 176 <= |data| && data[pe..pe + 4] == [0x50, 0x45, 0, 0]
       && Number(data, pe + 4, 2) == (if wide then 0x8664 else 0x14c)
       && Number(data, pe + 24, 2) == (if wide then 0x20b else 0x10b)
       && (wide || allowX86)
       && Number(data, pe + 20, 2) >= DirectoriesPlace(wide) + (SECURITY + 1) * DIRECTORY_WIDTH
       && Number(data, pe + 24 + CountPlace(wide), 4) > SECURITY
  }

  /** The two places are those of the checksum field and of the certificate directory, in exactly the
      accepted images. */
  lemma OffsetsAreFields(data: Bytes, allowX86: bool, wide: bool)
    ensures Accepted(data, allowX86, wide) ==>
      var optional := Number(data, 60, 4) + 24;
      Offsets(data, allowX86) == Some((optional + ChecksumPlace(wide), optional + DirectoriesPlace(wide) + SECURITY * DIRECTORY_WIDTH))
    ensures Offsets(data, allowX86).Some? ==> Accepted(data, allowX86, true) || Accepted(data, allowX86, false)
  {
    Places(true);
    Places(false);
    hide ChecksumPlace, CountPlace, DirectoriesPlace;
    assert |data| >= 64 ==> data[..2] == [data[0], data[1]];
  }

  function Header(file: Bytes): Bytes { if |file| <= HEADER_READ then file else file[..HEADER_READ] }

  /** The fields signing may rewrite in place. */
  predicate Masked(i: nat, offsets: (nat, nat)) {
    offsets.0 <= i < offsets.0 + 4 || offsets.1 <= i < offsets.1 + 8
  }

  function Aligned(length: nat): nat { (length + 7) / 8 * 8 }

  /** The headers agree, the original carries no signature, and the certificate is appended,
      aligned, up to the end of the signed file. */
  predicate Appended(unsigned: Bytes, signed: Bytes, allowX86: bool) {
    var offsets := Offsets(Header(unsigned), allowX86);
    && offsets.Some? && Offsets(Header(signed), allowX86) == offsets
    && Number(unsigned, offsets.value.1, 4) == 0 && Number(unsigned, offsets.value.1 + 4, 4) == 0
    && var start, size := Number(signed, offsets.value.1, 4), Number(signed, offsets.value.1 + 4, 4);
       start == Aligned(|unsigned|) && size >= 8 && start + size == |signed|
  }

  /** Equal to the original everywhere outside the two fields, then zeros up to the
      certificate. */
  predicate SameCode(unsigned: Bytes, signed: Bytes, offsets: (nat, nat)) {
    && Aligned(|unsigned|) <= |signed|
    && (forall i :: 0 <= i < |unsigned| && !Masked(i, offsets) ==> unsigned[i] == signed[i])
    && (forall i :: |unsigned| <= i < Aligned(|unsigned|) ==> signed[i] == 0)
  }

  function Zeros(n: nat): (z: Bytes)
    ensures |z| == n && forall i :: 0 <= i < n ==> z[i] == 0
  {
    seq(n, i requires 0 <= i < n => 0)
  }

  /** Blanks the part of a field that falls into the chunk at `position`. */
  method Blank(chunk: Bytes, position: nat, offset: nat, length: nat) returns (blanked: Bytes)
    ensures |blanked| == |chunk|
    ensures forall k :: 0 <= k < |chunk| ==>
      blanked[k] == if offset <= position + k < offset + length then 0 else chunk[k]
  {
    var lo := if position >= offset then position else offset;
    var hi := if position + |chunk| <= offset + length then position + |chunk| else offset + length;
    blanked := chunk;
    if lo < hi {
      blanked := chunk[..lo - position] + Zeros(hi - lo) + chunk[hi - position..];
    }
  }

  /** Two chunks at one position, compared with both fields blanked. */
  method SameChunk(unsigned: Bytes, signed: Bytes, position: nat, count: nat, offsets: (nat, nat)) returns (same: bool)
    requires position + count <= |unsigned| && position + count <= |signed|
    ensures same <==> forall i :: position <= i < position + count && !Masked(i, offsets) ==> unsigned[i] == signed[i]
  {
    var left, right := unsigned[position..position + count], signed[position..position + count];
    left := Blank(left, position, offsets.0, 4);
    right := Blank(right, position, offsets.0, 4);
    left := Blank(left, position, offsets.1, 8);
    right := Blank(right, position, offsets.1, 8);
    assert forall k :: 0 <= k < count ==>
      left[k] == if Masked(position + k, offsets) then 0 else unsigned[position + k];
    assert forall k :: 0 <= k < count ==>
      right[k] == if Masked(position + k, offsets) then 0 else signed[position + k];
    same := left == right;
    if same {
      forall i | position <= i < position + count && !Masked(i, offsets)
        ensures unsigned[i] == signed[i]
      {
        assert left[i - position] == right[i - position];
      }
    }
  }

  /** `verify_signed_bytes`: every file length, every way a field falls across a chunk edge. */
  method VerifySigned(unsigned: Bytes, signed: Bytes, allowX86: bool) returns (ok: bool)
    ensures ok <==> Appended(unsigned, signed, allowX86)
                    && SameCode(unsigned, signed, Offsets(Header(unsigned), allowX86).value)
  {
    var found, other := Offsets(Header(unsigned), allowX86), Offsets(Header(signed), allowX86);
    if found.None? || other != found {
      return false;
    }
    var offsets := found.value;
    var start, size := Number(signed, offsets.1, 4), Number(signed, offsets.1 + 4, 4);
    if Number(unsigned, offsets.1, 4) != 0 || Number(unsigned, offsets.1 + 4, 4) != 0
       || start != Aligned(|unsigned|) || size < 8 || start + size != |signed| {
      return false;
    }
    if signed[|unsigned|..start] != Zeros(start - |unsigned|) {
      return false;
    }
    assert forall i :: |unsigned| <= i < start ==> signed[i] == signed[|unsigned|..start][i - |unsigned|];
    var position := 0;
    while position < |unsigned|
      invariant position <= |unsigned|
      invariant forall i :: 0 <= i < position && !Masked(i, offsets) ==> unsigned[i] == signed[i]
    {
      var count := if |unsigned| - position <= CHUNK then |unsigned| - position else CHUNK;
      var same := SameChunk(unsigned, signed, position, count, offsets);
      if !same {
        return false;
      }
      position := position + count;
    }
    return true;
  }

  // ----- what passing means

  /** What signing makes of an image: checksum and directory entry written in place, zeros to
      the next multiple of eight, then the certificate. */
  ghost predicate IsSigning(unsigned: Bytes, signed: Bytes, offsets: (nat, nat), checksum: Bytes, certificate: Bytes)
    requires offsets.0 + 4 <= offsets.1 && offsets.1 + 8 <= |unsigned|
  {
    var start := Aligned(|unsigned|);
    && |checksum| == 4 && |certificate| >= 8 && start < Power(4) && |certificate| < Power(4)
    && |signed| == start + |certificate|
    && signed[offsets.0..offsets.0 + 4] == checksum
    && signed[offsets.1..offsets.1 + 4] == Encode(start, 4)
    && signed[offsets.1 + 4..offsets.1 + 8] == Encode(|certificate|, 4)
    && SameCode(unsigned, signed, offsets)
    && signed[start..] == certificate
  }

  lemma SameField(a: Bytes, b: Bytes, at: nat, width: nat)
    requires at + width <= |a| <= |b| && forall i :: at <= i < at + width ==> a[i] == b[i]
    ensures Number(a, at, width) == Number(b, at, width) && a[at..at + width] == b[at..at + width]
  {
    assert a[at..at + width] == b[at..at + width];
  }

  /** Parsing reads none of the bytes that signing rewrites, nor the length. */
  lemma OffsetsSurvive(a: Bytes, b: Bytes, allowX86: bool)
    requires Offsets(a, allowX86).Some? && |a| <= |b|
    requires forall i :: 0 <= i < |a| && !Masked(i, Offsets(a, allowX86).value) ==> a[i] == b[i]
    ensures Offsets(b, allowX86) == Offsets(a, allowX86)
  {
    var pe := Number(a, 60, 4);
    SameField(a, b, 0, 2);
    SameField(a, b, 60, 4);
    SameField(a, b, pe, 4);
    SameField(a, b, pe + 4, 2);
    SameField(a, b, pe + 20, 2);
    SameField(a, b, pe + 24, 2);
    SameField(a, b, Offsets(a, allowX86).value.1 - 36, 4);
    assert a[0] == b[0] && a[1] == b[1];
  }

  lemma FieldEncoding(data: Bytes, at: nat, n: nat)
    requires at + 4 <= |data|
    ensures n < Power(4) && data[at..at + 4] == Encode(n, 4) <==> Number(data, at, 4) == n
  {
    EncodeDecode(data[at..at + 4]);
    if n < Power(4) {
      DecodeEncode(n, 4);
    }
  }

  lemma SigningFields(unsigned: Bytes, signed: Bytes, offsets: (nat, nat))
    requires offsets.0 + 4 <= offsets.1 && offsets.1 + 8 <= |unsigned|
    requires SameCode(unsigned, signed, offsets)
    ensures var start := Aligned(|unsigned|);
      IsSigning(unsigned, signed, offsets, signed[offsets.0..offsets.0 + 4], signed[start..]) <==>
      (Number(signed, offsets.1, 4) == start && Number(signed, offsets.1 + 4, 4) == |signed| - start
       && |signed| - start >= 8)
  {
    var start := Aligned(|unsigned|);
    FieldEncoding(signed, offsets.1, start);
    FieldEncoding(signed, offsets.1 + 4, |signed| - start);
  }

  /** A signed image passes exactly when it is a signing of the unsigned image: its own checksum
      bytes, fewer than eight zeros of padding and its certificate are all it adds. */
  lemma AcceptedIsSigning(unsigned: Bytes, signed: Bytes, allowX86: bool)
    requires Offsets(Header(unsigned), allowX86).Some?
    requires var security := Offsets(Header(unsigned), allowX86).value.1;
      Number(unsigned, security, 4) == 0 && Number(unsigned, security + 4, 4) == 0
    ensures var offsets := Offsets(Header(unsigned), allowX86).value;
      (Appended(unsigned, signed, allowX86) && SameCode(unsigned, signed, offsets)) <==>
      (|signed| >= Aligned(|unsigned|)
       && IsSigning(unsigned, signed, offsets, signed[offsets.0..offsets.0 + 4], signed[Aligned(|unsigned|)..]))
    ensures |unsigned| <= Aligned(|unsigned|) < |unsigned| + 8
  {
    var offsets := Offsets(Header(unsigned), allowX86).value;
    if SameCode(unsigned, signed, offsets) {
      OffsetsSurvive(Header(unsigned), Header(signed), allowX86);
      SigningFields(unsigned, signed, offsets);
    }
  }

  /** Every way to fill the checksum and to choose a certificate of at least eight bytes gives
      an image that passes. */
  lemma SigningIsAccepted(unsigned: Bytes, signed: Bytes, allowX86: bool, checksum: Bytes, certificate: Bytes)
    requires Offsets(Header(unsigned), allowX86).Some?
    requires var offsets := Offsets(Header(unsigned), allowX86).value;
      && Number(unsigned, offsets.1, 4) == 0 && Number(unsigned, offsets.1 + 4, 4) == 0
      && IsSigning(unsigned, signed, offsets, checksum, certificate)
    ensures Appended(unsigned, signed, allowX86)
    ensures SameCode(unsigned, signed, Offsets(Header(unsigned), allowX86).value)
  {
    AcceptedIsSigning(unsigned, signed, allowX86);
  }
}
