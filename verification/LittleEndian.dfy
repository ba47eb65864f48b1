/** Fixed-width little-endian numbers. */
module LittleEndian {
  import opened Utf8

  function Power(width: nat): (p: nat)
    ensures p >= 1
  {
    if width == 0 then 1 else 256 * Power(width - 1)
  }

  function Encode(n: nat, width: nat): (s: seq<byte>)
    requires n < Power(width)
    ensures |s| == width
  {
    if width == 0 then [] else [(n % 256) as byte] + Encode(n / 256, width - 1)
  }

  function Decode(s: seq<byte>): nat {
    if s == [] then 0 else s[0] as nat + 256 * Decode(s[1..])
  }

  lemma {:induction false} DecodeEncode(n: nat, width: nat)
    requires n < Power(width)
    ensures Decode(Encode(n, width)) == n
    decreases width
  {
    if width > 0 {
      DecodeEncode(n / 256, width - 1);
      assert Encode(n, width)[1..] == Encode(n / 256, width - 1);
    }
  }

  lemma {:induction false} EncodeDecode(s: seq<byte>)
    ensures Decode(s) < Power(|s|) && Encode(Decode(s), |s|) == s
    decreases |s|
  {
    if s != [] {
      EncodeDecode(s[1..]);
      var n := Decode(s);
      assert n / 256 == Decode(s[1..]) && n % 256 == s[0] as nat;
      assert s == [s[0]] + s[1..];
    }
  }
}
