/** Random identifiers (src/lib/uuid.ts): the platform's own UUID when it
    offers one; otherwise sixteen random bytes with the version 4 and
    variant bits set as section 4.4 of RFC 4122 prescribes, written as 32
    hex digits grouped 8-4-4-4-12; and as a last resort a template whose
    `x` and `y` places are filled from `Math.random`. The entropy sources are
    inputs: the platform's UUID, the filled byte array and the stream of
    `Math.random` results. */
module Uuid {
  import opened Types

  /** A lower-case hex digit. */
  predicate IsHexDigit(c: char) {
    '0' <= c <= '9' || 'a' <= c <= 'f'
  }

  /** `n.toString(16)` for a value below 16. */
  function HexDigit(n: nat): (c: char)
    requires n < 16
    ensures IsHexDigit(c)
  {
    if n < 10 then ('0' as int + n) as char else ('a' as int + n - 10) as char
  }

  /** The value of a hex digit. */
  function DigitValue(c: char): (n: nat)
    requires IsHexDigit(c)
    ensures n < 16 && HexDigit(n) == c
  {
    if c <= '9' then c as int - '0' as int else c as int - 'a' as int + 10
  }

  /** `toHex`: two lower-case hex digits, the high nibble first, padded with '0'. */
  function ByteHex(b: bv8): (s: string)
    ensures |s| == 2 && IsHexDigit(s[0]) && IsHexDigit(s[1])
    ensures DigitValue(s[0]) * 16 + DigitValue(s[1]) == b as int
  {
    var hi, lo := b as int / 16, b as int % 16;
    HexDigitValue(hi);
    HexDigitValue(lo);
    [HexDigit(hi), HexDigit(lo)]
  }

  /** A digit reads back as the value it writes. */
  lemma HexDigitValue(n: nat)
    requires n < 16
    ensures DigitValue(HexDigit(n)) == n
  {
  }

  /** `Array.from(bytes, toHex).join('')` */
  function Hex(bytes: seq<bv8>): (s: string)
    ensures |s| == 2 * |bytes|
    ensures forall i :: 0 <= i < |s| ==> IsHexDigit(s[i])
    ensures forall k :: 0 <= k < |bytes| ==> s[2 * k..2 * k + 2] == ByteHex(bytes[k])
    decreases |bytes|
  {
    if bytes == [] then []
    else
      var rest := Hex(bytes[1..]);
      var s := ByteHex(bytes[0]) + rest;
      assert forall k :: 1 <= k < |bytes| ==> s[2 * k..2 * k + 2] == rest[2 * (k - 1)..2 * (k - 1) + 2];
      s
  }

  /** Reading the hex text back, two digits per byte. */
  function Unhex(s: string): (bytes: seq<bv8>)
    requires |s| % 2 == 0 && forall i :: 0 <= i < |s| ==> IsHexDigit(s[i])
    ensures |bytes| == |s| / 2
    decreases |s|
  {
    if s == [] then [] else [(DigitValue(s[0]) * 16 + DigitValue(s[1])) as bv8] + Unhex(s[2..])
  }

  /** One byte's two digits read back give the byte. */
  lemma ByteHexRoundTrip(b: bv8)
    ensures (DigitValue(ByteHex(b)[0]) * 16 + DigitValue(ByteHex(b)[1])) as bv8 == b
  {
  }

  /** The hex text names the bytes exactly: reading it back gives them. */
  lemma {:induction false} UnhexHex(bytes: seq<bv8>)
    ensures Unhex(Hex(bytes)) == bytes
    decreases |bytes|
  {
    if bytes != [] {
      var s := Hex(bytes);
      UnhexHex(bytes[1..]);
      assert s[2..] == Hex(bytes[1..]);
      assert s[..2] == ByteHex(bytes[0]);
      ByteHexRoundTrip(bytes[0]);
    }
  }

  /** `(b & 0x0f) | 0x40` keeps the low nibble and sets the high one to 4. */
  lemma VersionMask(b: bv8)
    ensures ((b & 0x0f) | 0x40) as int == b as int % 16 + 64
  {
  }

  /** `(b & 0x3f) | 0x80` keeps the low six bits and sets the top two to 10. */
  lemma VariantMask(b: bv8)
    ensures ((b & 0x3f) | 0x80) as int == b as int % 64 + 128
  {
  }

  /** The version and variant bits: byte 6 gets high nibble 4, byte 8 gets
      top bits 10, and every other bit is kept. */
  function VersionBits(bytes: seq<bv8>): (r: seq<bv8>)
    requires |bytes| == 16
    ensures |r| == 16
    ensures r[6] as int / 16 == 4 && r[6] as int % 16 == bytes[6] as int % 16
    ensures r[8] as int / 64 == 2 && r[8] as int % 64 == bytes[8] as int % 64
    ensures forall k :: 0 <= k < 16 && k != 6 && k != 8 ==> r[k] == bytes[k]
  {
    VersionMask(bytes[6]);
    VariantMask(bytes[8]);
    bytes[6 := (bytes[6] & 0x0f) | 0x40][8 := (bytes[8] & 0x3f) | 0x80]
  }

  /** Setting the bits twice is setting them once. */
  lemma VersionBitsIdempotent(bytes: seq<bv8>)
    requires |bytes| == 16
    ensures VersionBits(VersionBits(bytes)) == VersionBits(bytes)
  {
    var v := VersionBits(bytes);
    VersionMask(v[6]);
    VariantMask(v[8]);
  }

  /** Lines 12-13: the two bytes are masked in place in the random array. */
  method SetVersionBits(bytes: array<bv8>)
    requires bytes.Length == 16
    modifies bytes
    ensures bytes[..] == VersionBits(old(bytes[..]))
  {
    bytes[6] := (bytes[6] & 0x0f) | 0x40;
    bytes[8] := (bytes[8] & 0x3f) | 0x80;
  }

  /** The 8-4-4-4-12 grouping of 32 hex digits. */
  function Group(b: string): (u: string)
    requires |b| == 32
    ensures |u| == 36
  {
    b[0..8] + "-" + b[8..12] + "-" + b[12..16] + "-" + b[16..20] + "-" + b[20..]
  }

  /** Dropping the four dashes. */
  function Ungroup(u: string): string
    requires |u| == 36
  {
    u[0..8] + u[9..13] + u[14..18] + u[19..23] + u[24..]
  }

  lemma UngroupGroup(b: string)
    requires |b| == 32
    ensures Ungroup(Group(b)) == b
  {
    var u := Group(b);
    assert u[0..8] == b[0..8] && u[9..13] == b[8..12] && u[14..18] == b[12..16];
    assert u[19..23] == b[16..20] && u[24..] == b[20..];
    assert b == b[0..8] + b[8..12] + b[12..16] + b[16..20] + b[20..];
  }

  /** Where the text of a version 4 UUID has a dash. */
  predicate DashAt(i: int) {
    i == 8 || i == 13 || i == 18 || i == 23
  }

  /** The text of a version 4 UUID: 36 characters, dashes at 8, 13, 18 and
      23, lower-case hex digits elsewhere, '4' at 14 and one of 8, 9, a, b
      at 19. */
  predicate IsUuidV4Text(u: string) {
    && |u| == 36
    && (forall i :: 0 <= i < 36 ==> if DashAt(i) then u[i] == '-' else IsHexDigit(u[i]))
    && u[14] == '4'
    && u[19] in "89ab"
  }

  /** Position `i` of the grouped text in the 32 hex digits. */
  function HexIndex(i: nat): nat
    requires i < 36 && !DashAt(i)
  {
    if i < 8 then i else if i < 13 then i - 1 else if i < 18 then i - 2 else if i < 23 then i - 3 else i - 4
  }

  lemma GroupAt(b: string, i: nat)
    requires |b| == 32 && i < 36
    ensures DashAt(i) ==> Group(b)[i] == '-'
    ensures !DashAt(i) ==> Group(b)[i] == b[HexIndex(i)]
  {
  }

  /** The formatted random bytes (line 16). */
  function FromBytes(bytes: seq<bv8>): (u: string)
    requires |bytes| == 16
  {
    Group(Hex(VersionBits(bytes)))
  }

  /** Whatever the random bytes, the result is the text of a version 4 UUID,
      and it still names the masked bytes. */
  lemma FromBytesIsV4(bytes: seq<bv8>)
    requires |bytes| == 16
    ensures IsUuidV4Text(FromBytes(bytes))
    ensures Unhex(Ungroup(FromBytes(bytes))) == VersionBits(bytes)
  {
    var v := VersionBits(bytes);
    var b := Hex(v);
    var u := Group(b);
    UnhexHex(v);
    UngroupGroup(b);
    forall i | 0 <= i < 36
      ensures if DashAt(i) then u[i] == '-' else IsHexDigit(u[i])
    {
      GroupAt(b, i);
    }
    GroupAt(b, 14);
    GroupAt(b, 19);
    assert b[12..14] == ByteHex(v[6]);
    assert b[16..18] == ByteHex(v[8]);
    assert u[14] == b[12] == HexDigit(v[6] as int / 16);
    assert u[19] == b[16] == HexDigit(v[8] as int / 16);
    assert 8 <= v[8] as int / 16 < 12;
  }

  // Last-resort template

  /** `n` copies of `x`. */
  function Xs(n: nat): (s: string)
    ensures |s| == n && forall i :: 0 <= i < n ==> s[i] == 'x'
  {
    seq(n, _ => 'x')
  }

  /** "xxxxxxxx-xxxx-4xxx-yxxx-xxxxxxxxxxxx" */
  const Template: string := Xs(8) + "-" + Xs(4) + "-4" + Xs(3) + "-y" + Xs(3) + "-" + Xs(12)

  /** `(Math.random() * 16) | 0` for a draw in [0, 1). */
  function Nibble(x: real): (n: nat)
    requires 0.0 <= x < 1.0
    ensures n < 16
  {
    (x * 16.0).Floor
  }

  /** The replacement for one `x` or `y`: the random nibble for `x`, and for
      `y` its low two bits with 8 added. */
  function Replacement(c: char, x: real): (d: char)
    requires 0.0 <= x < 1.0
    ensures IsHexDigit(d)
    ensures c != 'x' ==> d in "89ab"
  {
    var r := Nibble(x);
    var v := if c == 'x' then r else ((r as bv8 & 0x3) | 0x8) as int;
    assert c != 'x' ==> 8 <= v < 12;
    HexDigit(v)
  }

  /** `tpl.replace(/[xy]/g, …)`: every `x` and `y`, left to right, takes
      the next draw of `Math.random` (`draws(used)` onwards). */
  function Fill(tpl: string, draws: nat -> real, used: nat): (u: string)
    requires forall n :: 0.0 <= draws(n) < 1.0
    ensures |u| == |tpl|
    ensures forall i :: 0 <= i < |tpl| ==>
      (if tpl[i] == 'x' then IsHexDigit(u[i])
       else if tpl[i] == 'y' then u[i] in "89ab"
       else u[i] == tpl[i])
    decreases |tpl|
  {
    if tpl == [] then []
    else if tpl[0] == 'x' || tpl[0] == 'y' then
      [Replacement(tpl[0], draws(used))] + Fill(tpl[1..], draws, used + 1)
    else [tpl[0]] + Fill(tpl[1..], draws, used)
  }

  /** Whatever `Math.random` returns, the template gives the text of a
      version 4 UUID. */
  lemma FallbackIsV4(draws: nat -> real)
    requires forall n :: 0.0 <= draws(n) < 1.0
    ensures IsUuidV4Text(Fill(Template, draws, 0))
  {
    var u := Fill(Template, draws, 0);
    forall i | 0 <= i < 36
      ensures if DashAt(i) then u[i] == '-' else IsHexDigit(u[i])
    {
      if DashAt(i) {
        assert Template[i] == '-';
      } else {
        assert Template[i] in "xy4";
      }
    }
    assert Template[14] == '4' && Template[19] == 'y';
  }

  /** `randomId()`. `native` is the platform's UUID when `crypto.randomUUID`
      exists and does not throw; `bytes` is the array `getRandomValues`
      filled, absent without it; `draws` is the stream of `Math.random`. */
  method RandomId(native: Option<string>, bytes: array?<bv8>, draws: nat -> real) returns (id: string)
    requires bytes != null ==> bytes.Length == 16
    requires forall n :: 0.0 <= draws(n) < 1.0
    modifies bytes
    ensures native.Some? ==> id == native.value && (bytes != null ==> bytes[..] == old(bytes[..]))
    ensures native.None? && bytes != null ==>
      bytes[..] == VersionBits(old(bytes[..])) && id == FromBytes(old(bytes[..]))
    ensures native.None? && bytes == null ==> id == Fill(Template, draws, 0)
    ensures native.None? ==> IsUuidV4Text(id)
  {
    if native.Some? {
      return native.value;
    }
    if bytes != null {
      ghost var before := bytes[..];
      SetVersionBits(bytes);
      id := Group(Hex(bytes[..]));
      FromBytesIsV4(before);
      return;
    }
    id := Fill(Template, draws, 0);
    FallbackIsV4(draws);
  }
}
