/** Register codec of controller.py: big-endian 16/32-bit integer decoding of
    Modbus holding registers and the packed two-characters-per-register ASCII
    fields used for serial and model numbers. */
module Codec {
  import opened Common
  import opened Text

  /** A Modbus holding register: an unsigned 16-bit value. */
  type Reg = x: int | 0 <= x < 0x1_0000

  const TwoTo16: int := 0x1_0000
  const TwoTo31: int := 0x8000_0000
  const TwoTo32: int := 0x1_0000_0000

  /** `registers_to_unsigned_32`: registers `pos` and `pos + 1` read as one
      big-endian unsigned 32-bit integer. An index past the block raises
      IndexError in Python; every call site reads a fixed offset of a block
      whose length the poll has already checked. */
  function RegistersToUnsigned32(regs: seq<Reg>, pos: nat): (v: int)
    requires pos + 1 < |regs|
    ensures 0 <= v < TwoTo32
    ensures v / TwoTo16 == regs[pos] && v % TwoTo16 == regs[pos + 1]
  {
    regs[pos] * TwoTo16 + regs[pos + 1]
  }

  /** `registers_to_signed_32`: the same 32 bits read as two's complement. */
  function RegistersToSigned32(regs: seq<Reg>, pos: nat): (v: int)
    requires pos + 1 < |regs|
    ensures -TwoTo31 <= v < TwoTo31
    ensures v % TwoTo32 == RegistersToUnsigned32(regs, pos)
    ensures v < 0 <==> regs[pos] >= 0x8000
  {
    var u := RegistersToUnsigned32(regs, pos);
    if u >= TwoTo31 then u - TwoTo32 else u
  }

  /** `register_to_signed_16`: one register read as two's complement. */
  function RegisterToSigned16(r: Reg): (v: int)
    ensures -0x8000 <= v < 0x8000
    ensures v % TwoTo16 == r
    ensures v == r - TwoTo16 <==> r >= 0x8000
    ensures v == r <==> r < 0x8000
  {
    if r >= 0x8000 then r - TwoTo16 else r
  }

  // ---------------------------------------------------------------------
  // Encoders: the inverse direction, as the inverter lays values out.

  /** Big-endian split of an unsigned 32-bit value into two registers. */
  function Unsigned32ToRegisters(v: int): (regs: seq<Reg>)
    requires 0 <= v < TwoTo32
    ensures |regs| == 2
  {
    [v / TwoTo16, v % TwoTo16]
  }

  /** Big-endian two's-complement layout of a signed 32-bit value. */
  function Signed32ToRegisters(v: int): (regs: seq<Reg>)
    requires -TwoTo31 <= v < TwoTo31
    ensures |regs| == 2
  {
    Unsigned32ToRegisters(v % TwoTo32)
  }

  lemma Unsigned32RoundTrip(v: int)
    requires 0 <= v < TwoTo32
    ensures RegistersToUnsigned32(Unsigned32ToRegisters(v), 0) == v
  {
  }

  lemma Signed32RoundTrip(v: int)
    requires -TwoTo31 <= v < TwoTo31
    ensures RegistersToSigned32(Signed32ToRegisters(v), 0) == v
  {
    var u := v % TwoTo32;
    assert RegistersToUnsigned32(Signed32ToRegisters(v), 0) == u;
    if v < 0 {
      assert u == v + TwoTo32;
    }
  }

  /** Decoding then re-encoding reproduces the two registers. */
  lemma RegistersRoundTrip(regs: seq<Reg>, pos: nat)
    requires pos + 1 < |regs|
    ensures Unsigned32ToRegisters(RegistersToUnsigned32(regs, pos)) == regs[pos..pos + 2]
    ensures Signed32ToRegisters(RegistersToSigned32(regs, pos)) == regs[pos..pos + 2]
  {
  }

  // ---------------------------------------------------------------------
  // Packed ASCII strings.

  /** `(x >> 8) & 0xFF` and `x & 0xFF`. */
  function HighByte(x: Reg): int { x / 0x100 }
  function LowByte(x: Reg): int { x % 0x100 }

  /** The characters one register contributes: high byte first, then low
      byte, each only when it is non-zero. */
  function RegisterChars(x: Reg): (s: string)
    ensures |s| <= 2
  {
    (if HighByte(x) > 0 then [HighByte(x) as char] else [])
    + (if LowByte(x) > 0 then [LowByte(x) as char] else [])
  }

  /** The unstripped string a run of registers spells, register by register. */
  function PackedChars(regs: seq<Reg>): (s: string)
  {
    if regs == [] then [] else PackedChars(regs[..|regs| - 1]) + RegisterChars(regs[|regs| - 1])
  }

  /** A character a decoded field can hold: a non-zero byte. */
  predicate IsFieldChar(c: char)
  {
    0 < c as int < 0x100
  }

  lemma {:induction false} PackedCharsShape(regs: seq<Reg>)
    ensures |PackedChars(regs)| <= 2 * |regs|
    ensures forall k :: 0 <= k < |PackedChars(regs)| ==> IsFieldChar(PackedChars(regs)[k])
  {
    if regs != [] {
      PackedCharsShape(regs[..|regs| - 1]);
    }
  }

  /** `registers_to_string(registers, start, length)`: the packed field of
      `length` registers from `start`, zero bytes skipped and surrounding
      whitespace stripped. `None` stands for the IndexError raised when the
      field runs past the block. */
  method RegistersToString(regs: seq<Reg>, start: nat, length: int) returns (r: Option<string>)
    ensures r.None? <==> length > 0 && start + length > |regs|
    ensures length <= 0 ==> r == Some("")
    ensures r.Some? && length > 0 ==> r.value == Strip(PackedChars(regs[start..start + length]))
    ensures r.Some? ==> |r.value| <= 2 * (if length > 0 then length else 0)
    ensures r.Some? ==> forall k :: 0 <= k < |r.value| ==> IsFieldChar(r.value[k])
  {
    var data := "";
    var i := 0;
    while i < length
      invariant 0 <= i && (length > 0 ==> i <= length) && (length <= 0 ==> i == 0)
      invariant i == 0 ==> data == ""
      invariant i > 0 ==> start + i <= |regs| && data == PackedChars(regs[start..start + i])
    {
      if start + i >= |regs| {
        return None;
      }
      var x := regs[start + i];
      assert PackedChars(regs[start..start + i + 1]) == PackedChars(regs[start..start + i]) + RegisterChars(x) by {
        assert regs[start..start + i + 1][..i] == regs[start..start + i];
      }
      data := data + RegisterChars(x);
      i := i + 1;
    }
    if length > 0 {
      PackedCharsShape(regs[start..start + length]);
      StripKeepsFieldChars(data);
      r := Some(Strip(data));
    } else {
      assert Strip(data) == data == "";
      r := Some(data);
    }
  }

  /** Stripping only removes characters, so a field stays made of field
      characters. */
  lemma StripKeepsFieldChars(s: string)
    requires forall k :: 0 <= k < |s| ==> IsFieldChar(s[k])
    ensures forall k :: 0 <= k < |Strip(s)| ==> IsFieldChar(Strip(s)[k])
  {
    var r := Strip(s);
    var i := LeadingSpaces(s);
    forall k | 0 <= k < |r| ensures IsFieldChar(r[k]) {
      assert r[k] == s[i + k];
    }
  }

  // ---------------------------------------------------------------------
  // The inverse of the packed field: a string laid out two characters per
  // register.

  /** Two characters per register, the first in the high byte. */
  function StringToRegisters(s: string): (regs: seq<Reg>)
    requires |s| % 2 == 0
    requires forall k :: 0 <= k < |s| ==> IsFieldChar(s[k])
    ensures |regs| == |s| / 2
  {
    if s == [] then []
    else
      var n := |s|;
      assert IsFieldChar(s[n - 2]) && IsFieldChar(s[n - 1]);
      var x: Reg := (s[n - 2] as int) * 0x100 + (s[n - 1] as int);
      StringToRegisters(s[..n - 2]) + [x]
  }

  lemma {:induction false} PackedCharsOfString(s: string)
    requires |s| % 2 == 0
    requires forall k :: 0 <= k < |s| ==> IsFieldChar(s[k])
    ensures PackedChars(StringToRegisters(s)) == s
  {
    if s != [] {
      var n := |s|;
      var regs := StringToRegisters(s);
      assert regs[..|regs| - 1] == StringToRegisters(s[..n - 2]);
      PackedCharsOfString(s[..n - 2]);
      assert IsFieldChar(s[n - 2]) && IsFieldChar(s[n - 1]);
      var x: Reg := (s[n - 2] as int) * 0x100 + (s[n - 1] as int);
      assert HighByte(x) == s[n - 2] as int;
      assert LowByte(x) == s[n - 1] as int;
      assert RegisterChars(x) == [s[n - 2], s[n - 1]];
      assert s == s[..n - 2] + [s[n - 2], s[n - 1]];
    }
  }

  /** A serial or model number written two characters per register (no zero
      bytes, no surrounding whitespace) decodes back to itself. */
  method StringRoundTrip(s: string) returns (r: Option<string>)
    requires |s| % 2 == 0
    requires forall k :: 0 <= k < |s| ==> IsFieldChar(s[k])
    requires s == [] || (!IsSpace(s[0]) && !IsSpace(s[|s| - 1]))
    ensures r == Some(s)
  {
    var regs := StringToRegisters(s);
    PackedStringStrips(s);
    assert regs[0..|regs|] == regs;
    r := RegistersToString(regs, 0, |regs|);
  }

  lemma PackedStringStrips(s: string)
    requires |s| % 2 == 0
    requires forall k :: 0 <= k < |s| ==> IsFieldChar(s[k])
    requires s == [] || (!IsSpace(s[0]) && !IsSpace(s[|s| - 1]))
    ensures Strip(PackedChars(StringToRegisters(s))) == s
  {
    PackedCharsOfString(s);
  }
}
