/**
 * Model of the string helpers of mem01/src/utilities/utility.cpp:
 * `stringify<std::vector<bool>>`, `printHex` and `printHexWithAddress`.
 * The two hex dumps write with `sprintf` into a zeroed scratch buffer of
 * `4 * length` characters at a running offset; here that buffer is an array.
 */
module Utility {
  import opened Optional

  // ---------------------------------------------------------------------------
  // stringify<std::vector<bool>>

  function BitChar(b: bool): char {
    if b then '1' else '0'
  }

  /** The characters the loop appends: one digit per element, in order. */
  function Digits(v: seq<bool>): (s: string)
    ensures |s| == |v|
    ensures forall i | 0 <= i < |v| :: s[i] == BitChar(v[i])
  {
    if v == [] then "" else Digits(v[..|v| - 1]) + [BitChar(v[|v| - 1])]
  }

  /** What `stringify` returns: the erase drops the digit of the last element. */
  function StringifyAsWritten(v: seq<bool>): (s: string)
    ensures v == [] ==> s == "[]"
    ensures v != [] ==> |s| == |v| + 1 && s[0] == '[' && s[|v|] == ']'
    ensures v != [] ==> forall i | 0 <= i < |v| - 1 :: s[i + 1] == BitChar(v[i])
  {
    if v == [] then "[]" else "[" + Digits(v[..|v| - 1]) + "]"
  }

  /** `stringify<std::vector<bool>>(v)`: append "[", one digit per element, erase one character, append "]". */
  method Stringify(v: seq<bool>) returns (b: string)
    ensures b == StringifyAsWritten(v)
  {
    b := "";
    if |v| > 0 {
      b := b + "[";
      for i := 0 to |v|
        invariant b == "[" + Digits(v[..i])
      {
        assert v[..i + 1][..i] == v[..i];
        b := b + [BitChar(v[i])];
      }
      assert v[..|v|] == v;
      b := b[..|b| - 1];
      assert b == "[" + Digits(v[..|v| - 1]);
      b := b + "]";
    } else {
      b := "[]";
    }
  }

  /** The last element never shows: flipping it leaves the text unchanged, and `[true]` prints as `[]`. */
  lemma StringifyLosesLastBit(v: seq<bool>)
    requires v != []
    ensures StringifyAsWritten(v[..|v| - 1] + [!v[|v| - 1]]) == StringifyAsWritten(v)
    ensures StringifyAsWritten([true]) == StringifyAsWritten([false]) == "[]"
  {
    var w := v[..|v| - 1] + [!v[|v| - 1]];
    assert w[..|w| - 1] == v[..|v| - 1];
    assert Digits([]) == "";
  }

  /** The evident intent: every element's digit between the brackets. */
  function StringifyBits(v: seq<bool>): string {
    "[" + Digits(v) + "]"
  }

  function DecodeDigits(s: string): Option<seq<bool>> {
    if s == [] then Some([])
    else
      var last := s[|s| - 1];
      match DecodeDigits(s[..|s| - 1])
      case None => None
      case Some(front) =>
        if last == '1' then Some(front + [true])
        else if last == '0' then Some(front + [false])
        else None
  }

  /** Reads the text back: brackets around a run of '0'/'1'. */
  function ParseBits(s: string): Option<seq<bool>> {
    if |s| >= 2 && s[0] == '[' && s[|s| - 1] == ']' then DecodeDigits(s[1..|s| - 1]) else None
  }

  lemma {:induction false} DecodeDigitsRoundTrip(v: seq<bool>)
    ensures DecodeDigits(Digits(v)) == Some(v)
  {
    if v != [] {
      var d := Digits(v);
      assert d[..|d| - 1] == Digits(v[..|v| - 1]);
      DecodeDigitsRoundTrip(v[..|v| - 1]);
      assert v[..|v| - 1] + [v[|v| - 1]] == v;
    }
  }

  /** The intended text determines the vector: parsing it back gives the input. */
  lemma StringifyBitsRoundTrip(v: seq<bool>)
    ensures ParseBits(StringifyBits(v)) == Some(v)
  {
    var s := StringifyBits(v);
    assert s[1..|s| - 1] == Digits(v);
    DecodeDigitsRoundTrip(v);
  }

  // ---------------------------------------------------------------------------
  // Hexadecimal digits

  /** An element of the source's `const char *` buffer (a signed `char`). */
  type SChar = x: int | -128 <= x < 128

  type Byte = x: int | 0 <= x < 256

  /** The `(uint8_t)` cast of a `char`. */
  function ToUnsigned(c: SChar): (b: Byte)
    ensures b == if c < 0 then c + 256 else c
  {
    c % 256
  }

  predicate IsLowerHex(c: char) {
    '0' <= c <= '9' || 'a' <= c <= 'f'
  }

  function HexValue(c: char): int {
    if '0' <= c <= '9' then c as int - '0' as int
    else if 'a' <= c <= 'f' then c as int - 'a' as int + 10
    else -1
  }

  /** One lowercase hexadecimal digit. */
  function HexDigit(d: int): (c: char)
    requires 0 <= d < 16
    ensures IsLowerHex(c) && HexValue(c) == d
  {
    if d < 10 then ('0' as int + d) as char else ('a' as int + d - 10) as char
  }

  /** `"%02x"` of a byte: exactly two lowercase digits of its value. */
  function Hex2(b: Byte): (s: string)
    ensures |s| == 2 && IsLowerHex(s[0]) && IsLowerHex(s[1])
    ensures 16 * HexValue(s[0]) + HexValue(s[1]) == b
  {
    [HexDigit(b / 16), HexDigit(b % 16)]
  }

  /** The value of a run of hexadecimal digits, most significant first. */
  function ParseHex(s: string): int {
    if s == [] then 0 else 16 * ParseHex(s[..|s| - 1]) + HexValue(s[|s| - 1])
  }

  /** `"%x"`: the shortest run of lowercase digits of `v`. */
  function HexDigits(v: nat): (s: string)
    ensures |s| >= 1 && ParseHex(s) == v
    ensures |s| == 1 || s[0] != '0'
    ensures forall i | 0 <= i < |s| :: IsLowerHex(s[i])
  {
    if v < 16 then [HexDigit(v)]
    else
      var s := HexDigits(v / 16) + [HexDigit(v % 16)];
      assert s[..|s| - 1] == HexDigits(v / 16);
      s
  }

  function Pow16(k: nat): (p: nat)
    ensures p >= 1
  {
    if k == 0 then 1 else 16 * Pow16(k - 1)
  }

  lemma {:induction false} HexDigitsAtMost(v: nat, k: nat)
    requires 1 <= k && v < Pow16(k)
    ensures |HexDigits(v)| <= k
  {
    if v >= 16 {
      assert k >= 2;
      HexDigitsAtMost(v / 16, k - 1);
    }
  }

  /** A 32-bit value never needs more than eight digits. */
  lemma HexDigitsOfWord(v: nat)
    requires v < 0x1_0000_0000
    ensures |HexDigits(v)| <= 8
  {
    assert Pow16(8) == 0x1_0000_0000;
    HexDigitsAtMost(v, 8);
  }

  lemma {:induction false} ZeroPrefixKeepsValue(z: nat, s: string)
    ensures ParseHex(seq(z, _ => '0') + s) == ParseHex(s)
    decreases |s|
  {
    var zs := seq(z, _ => '0');
    if s == [] {
      ZerosAreZero(z);
      assert zs + s == zs;
    } else {
      assert (zs + s)[..|zs + s| - 1] == zs + s[..|s| - 1];
      ZeroPrefixKeepsValue(z, s[..|s| - 1]);
    }
  }

  lemma {:induction false} ZerosAreZero(z: nat)
    ensures ParseHex(seq(z, _ => '0')) == 0
  {
    if z > 0 {
      var zs := seq(z, _ => '0');
      assert zs[..z - 1] == seq(z - 1, _ => '0');
      ZerosAreZero(z - 1);
    }
  }

  /** `"%06x"`: the digits of `v`, zero-padded on the left to at least six. */
  function Hex06(v: nat): (s: string)
    ensures |s| == if |HexDigits(v)| < 6 then 6 else |HexDigits(v)|
    ensures ParseHex(s) == v
    ensures forall i | 0 <= i < |s| :: IsLowerHex(s[i])
  {
    var d := HexDigits(v);
    var pad := if |d| < 6 then 6 - |d| else 0;
    ZeroPrefixKeepsValue(pad, d);
    seq(pad, _ => '0') + d
  }

  // ---------------------------------------------------------------------------
  // The scratch buffer

  /** `sprintf(str + ret, ...)`: writes `text` and its terminator at `ret`; returns the new offset. */
  method WriteAt(str: array<char>, ret: nat, text: string) returns (next: nat)
    requires ret + |text| < str.Length
    modifies str
    ensures next == ret + |text|
    ensures str[..next] == old(str[..ret]) + text && str[next] == '\0'
    ensures str[next + 1..] == old(str[next + 1..])
  {
    ghost var before := str[..];
    for k := 0 to |text|
      invariant forall m | 0 <= m < str.Length :: str[m] == if ret <= m < ret + k then text[m - ret] else before[m]
    {
      str[ret + k] := text[k];
    }
    next := ret + |text|;
    str[next] := '\0';
    assert str[..next] == before[..ret] + text;
    assert str[next + 1..] == before[next + 1..];
  }

  /** `std::string(str)`: the characters before the first terminator. */
  method CString(str: array<char>) returns (s: string)
    requires '\0' in str[..]
    ensures |s| < str.Length && s == str[..|s|] && str[|s|] == '\0' && '\0' !in s
  {
    var k := 0;
    while str[k] != '\0'
      invariant 0 <= k < str.Length
      invariant '\0' !in str[..k]
      invariant '\0' in str[k..]
      decreases str.Length - k
    {
      assert str[k..] == [str[k]] + str[k + 1..];
      assert str[..k + 1] == str[..k] + [str[k]];
      k := k + 1;
    }
    s := str[..k];
  }

  /** The text before the first terminator is exactly a terminator-free prefix that is followed by one. */
  lemma CStringIsPrefix(str: seq<char>, s: string, text: string)
    requires |s| < |str| && s == str[..|s|] && str[|s|] == '\0' && '\0' !in s
    requires |text| < |str| && text == str[..|text|] && str[|text|] == '\0' && '\0' !in text
    ensures s == text
  {
  }

  // ---------------------------------------------------------------------------
  // printHex

  /** `"%02x "` of one element. */
  function HexCell(c: SChar): (s: string)
    ensures |s| == 3 && '\0' !in s
  {
    Hex2(ToUnsigned(c)) + " "
  }

  /** A cell reads back as the element's unsigned value, two lowercase digits and a space. */
  lemma HexCellValue(c: SChar)
    ensures var s := HexCell(c);
      IsLowerHex(s[0]) && IsLowerHex(s[1]) && s[2] == ' '
      && 16 * HexValue(s[0]) + HexValue(s[1]) == if c < 0 then c + 256 else c
  {
    var h := Hex2(ToUnsigned(c));
    assert HexCell(c)[0] == h[0] && HexCell(c)[1] == h[1];
  }

  /** The text `printHex` builds: one cell per byte, a newline after every 16th. */
  function HexDump(buff: seq<SChar>): string {
    if buff == [] then ""
    else
      var i := |buff| - 1;
      HexDump(buff[..i]) + HexCell(buff[i]) + (if i % 16 == 15 then "\n" else "")
  }

  /** Appending byte `i` appends its cell, then a newline when it closes a row. */
  lemma HexDumpStep(buff: seq<SChar>, i: nat)
    requires i < |buff|
    ensures HexDump(buff[..i + 1]) == HexDump(buff[..i]) + HexCell(buff[i]) + (if i % 16 == 15 then "\n" else "")
  {
    assert buff[..i + 1][..i] == buff[..i];
  }

  /** Where the cell of byte `i` starts: three characters per byte, one newline per full row. */
  function CellAt(i: nat): nat {
    3 * i + i / 16
  }

  lemma {:induction false} HexDumpLength(buff: seq<SChar>)
    ensures |HexDump(buff)| == CellAt(|buff|)
  {
    if buff != [] {
      var i := |buff| - 1;
      HexDumpLength(buff[..i]);
      HexDumpStep(buff, i);
      assert buff[..i + 1] == buff;
      assert (i + 1) / 16 == i / 16 + (if i % 16 == 15 then 1 else 0);
    }
  }

  /** The dump of a prefix of the buffer is a prefix of the dump. */
  lemma {:induction false} HexDumpPrefix(buff: seq<SChar>, k: nat)
    requires k <= |buff|
    ensures HexDump(buff[..k]) <= HexDump(buff)
    decreases |buff| - k
  {
    if k < |buff| {
      HexDumpPrefix(buff, k + 1);
      HexDumpStep(buff, k);
    } else {
      assert buff[..k] == buff;
    }
  }

  /** The cell of byte `i` starts at `3 * i + i / 16`: its two digits, then a space. */
  lemma HexDumpCell(buff: seq<SChar>, i: nat)
    requires i < |buff|
    ensures CellAt(i) + 3 <= |HexDump(buff)|
    ensures HexDump(buff)[CellAt(i)..CellAt(i) + 3] == HexCell(buff[i])
  {
    HexDumpPrefix(buff, i + 1);
    HexDumpStep(buff, i);
    HexDumpLength(buff[..i]);
    var front := HexDump(buff[..i]);
    var upto := HexDump(buff[..i + 1]);
    assert upto[|front|..|front| + 3] == HexCell(buff[i]);
    assert HexDump(buff)[|front|..|front| + 3] == upto[|front|..|front| + 3];
  }

  /** A newline follows the cell of every 16th byte, and no other cell. */
  lemma HexDumpRowBreak(buff: seq<SChar>, i: nat)
    requires i < |buff|
    ensures i % 16 == 15 ==> CellAt(i) + 3 < |HexDump(buff)| && HexDump(buff)[CellAt(i) + 3] == '\n'
    ensures i % 16 != 15 && i + 1 < |buff| ==> CellAt(i) + 3 < |HexDump(buff)| && HexDump(buff)[CellAt(i) + 3] != '\n'
  {
    if i % 16 == 15 {
      HexDumpPrefix(buff, i + 1);
      HexDumpStep(buff, i);
      HexDumpLength(buff[..i]);
      var upto := HexDump(buff[..i + 1]);
      assert upto[CellAt(i) + 3] == '\n';
      assert HexDump(buff)[CellAt(i) + 3] == upto[CellAt(i) + 3];
    } else if i + 1 < |buff| {
      assert CellAt(i + 1) == CellAt(i) + 3;
      HexDumpCell(buff, i + 1);
      HexCellValue(buff[i + 1]);
      assert HexDump(buff)[CellAt(i + 1)] == HexCell(buff[i + 1])[0];
    }
  }

  /** The dump and its terminator fit the `4 * buff_len` scratch buffer whenever `buff_len >= 1`. */
  lemma HexDumpFitsScratch(buff: seq<SChar>)
    requires |buff| >= 1
    ensures |HexDump(buff)| + 1 <= 4 * |buff|
  {
    HexDumpLength(buff);
  }

  /**
   * With `buff_len == 0` the scratch buffer has no room even for a
   * terminator: `result = str` then reads a string that ends nowhere in it.
   */
  lemma HexDumpZeroLength(str: array<char>)
    requires str.Length == 4 * 0
    ensures '\0' !in str[..] && |HexDump([])| + 1 > str.Length
  {
  }

  lemma HexDumpHasNoTerminator(buff: seq<SChar>)
    ensures '\0' !in HexDump(buff)
  {
    if buff != [] {
      HexDumpHasNoTerminator(buff[..|buff| - 1]);
    }
  }

  /**
   * `printHex(buff, buff_len)`; `allocFails` is the outcome of `malloc`. The
   * zero-length call returns the empty text without reading the scratch buffer.
   */
  method PrintHex(buff: seq<SChar>, allocFails: bool) returns (result: string)
    ensures result == if allocFails || |buff| == 0 then "" else HexDump(buff)
  {
    result := "";
    var n := |buff|;
    if allocFails || n == 0 {
      return;
    }
    var str := new char[4 * n](_ => '\0');
    var ret: nat := 0;
    for i := 0 to n
      invariant ret < str.Length && str[..ret] == HexDump(buff[..i]) && str[ret] == '\0'
    {
      HexDumpLength(buff[..i + 1]);
      HexDumpStep(buff, i);
      ret := WriteAt(str, ret, HexCell(buff[i]));
      if i % 16 == 15 {
        ret := WriteAt(str, ret, "\n");
      }
    }
    assert buff[..n] == buff;
    result := CString(str);
    HexDumpHasNoTerminator(buff);
    CStringIsPrefix(str[..], result, HexDump(buff));
  }

  // ---------------------------------------------------------------------------
  // printHexWithAddress

  /** `startAddr + i` as `%x` reads it: the unsigned 32-bit reinterpretation. */
  function AddressOf(startAddr: int, i: nat): nat {
    (startAddr + i) % 0x1_0000_0000
  }

  /** `"%06x    "`: the row address, then four spaces. */
  function RowPrefix(startAddr: int, i: nat): (s: string)
    ensures 10 <= |s| <= 12 && '\0' !in s
  {
    HexDigitsOfWord(AddressOf(startAddr, i));
    Hex06(AddressOf(startAddr, i)) + "    "
  }

  /** A row prefix reads back as the row's address; it is six digits wide below `0x1000000`. */
  lemma RowPrefixAddress(startAddr: int, i: nat)
    ensures var s := RowPrefix(startAddr, i);
      ParseHex(s[..|s| - 4]) == AddressOf(startAddr, i) && s[|s| - 4..] == "    "
    ensures AddressOf(startAddr, i) < 0x100_0000 ==> |RowPrefix(startAddr, i)| == 10
  {
    var s := RowPrefix(startAddr, i);
    assert s[..|s| - 4] == Hex06(AddressOf(startAddr, i));
    if AddressOf(startAddr, i) < 0x100_0000 {
      assert Pow16(6) == 0x100_0000;
      HexDigitsAtMost(AddressOf(startAddr, i), 6);
    }
  }

  /** The text `printHexWithAddress` builds: each 16-byte row starts with its address. */
  function AddressedDump(buff: seq<SChar>, startAddr: int): string {
    if buff == [] then ""
    else
      var i := |buff| - 1;
      AddressedDump(buff[..i], startAddr)
        + (if i % 16 == 0 then RowPrefix(startAddr, i) else "")
        + HexCell(buff[i])
        + (if i % 16 == 15 then "\n" else "")
  }

  lemma AddressedDumpStep(buff: seq<SChar>, startAddr: int, i: nat)
    requires i < |buff|
    ensures AddressedDump(buff[..i + 1], startAddr) == AddressedDump(buff[..i], startAddr)
      + (if i % 16 == 0 then RowPrefix(startAddr, i) else "")
      + HexCell(buff[i])
      + (if i % 16 == 15 then "\n" else "")
  {
    assert buff[..i + 1][..i] == buff[..i];
  }

  /**
   * As written, the `4 * length` scratch buffer is too small: one byte already
   * needs a 10-character prefix, 3 characters and a terminator, 14 > 4.
   */
  lemma AddressedDumpOverflowsScratch(c: SChar, startAddr: int)
    ensures |AddressedDump([c], startAddr)| + 1 >= 14 > 4 * |[c]|
  {
    assert [c][..0] == [];
  }

  /** Rows started among the first `n` bytes. */
  function Rows(n: nat): nat {
    (n + 15) / 16
  }

  /** A scratch size that holds every row prefix: `4 * length` plus 12 per row. */
  function AddressedScratch(n: nat): nat {
    4 * n + 12 * Rows(n)
  }

  lemma {:induction false} AddressedDumpBound(buff: seq<SChar>, startAddr: int)
    ensures |AddressedDump(buff, startAddr)| <= 3 * |buff| + |buff| / 16 + 12 * Rows(|buff|)
  {
    if buff != [] {
      var i := |buff| - 1;
      AddressedDumpBound(buff[..i], startAddr);
      assert Rows(i + 1) == Rows(i) + (if i % 16 == 0 then 1 else 0);
      assert (i + 1) / 16 == i / 16 + (if i % 16 == 15 then 1 else 0);
    }
  }

  /** With the larger scratch every prefix of the dump, plus its terminator, fits. */
  lemma AddressedDumpFits(buff: seq<SChar>, startAddr: int, k: nat)
    requires 1 <= |buff| && k <= |buff|
    ensures |AddressedDump(buff[..k], startAddr)| + 1 <= AddressedScratch(|buff|)
  {
    AddressedDumpBound(buff[..k], startAddr);
    var n := |buff|;
    assert Rows(k) <= Rows(n);
    assert k / 16 <= n / 16;
  }

  lemma AddressedDumpHasNoTerminator(buff: seq<SChar>, startAddr: int)
    ensures '\0' !in AddressedDump(buff, startAddr)
  {
    if buff != [] {
      var i := |buff| - 1;
      AddressedDumpHasNoTerminator(buff[..i], startAddr);
    }
  }

  /** One iteration of the loop of `printHexWithAddress`: the row prefix when a row starts, the cell, the newline when it ends. */
  method WriteAddressedByte(str: array<char>, ret: nat, buff: seq<SChar>, startAddr: int, i: nat) returns (next: nat)
    requires i < |buff| && ret < str.Length
    requires str[..ret] == AddressedDump(buff[..i], startAddr) && str[ret] == '\0'
    requires |AddressedDump(buff[..i + 1], startAddr)| < str.Length
    modifies str
    ensures next < str.Length && str[..next] == AddressedDump(buff[..i + 1], startAddr) && str[next] == '\0'
  {
    AddressedDumpStep(buff, startAddr, i);
    next := ret;
    if i % 16 == 0 {
      next := WriteAt(str, next, RowPrefix(startAddr, i));
    }
    next := WriteAt(str, next, HexCell(buff[i]));
    if i % 16 == 15 {
      next := WriteAt(str, next, "\n");
    }
  }

  /**
   * `printHexWithAddress(buff, startAddr, length)` with a scratch buffer of
   * `AddressedScratch(length)` characters instead of `4 * length`.
   */
  method PrintHexWithAddress(buff: seq<SChar>, startAddr: int, allocFails: bool) returns (result: string)
    ensures result == if allocFails || |buff| == 0 then "" else AddressedDump(buff, startAddr)
  {
    result := "";
    var n := |buff|;
    if allocFails || n == 0 {
      return;
    }
    var str := new char[AddressedScratch(n)](_ => '\0');
    var ret: nat := 0;
    for i := 0 to n
      invariant ret < str.Length && str[..ret] == AddressedDump(buff[..i], startAddr) && str[ret] == '\0'
    {
      AddressedDumpFits(buff, startAddr, i + 1);
      ret := WriteAddressedByte(str, ret, buff, startAddr, i);
    }
    assert buff[..n] == buff;
    result := CString(str);
    AddressedDumpHasNoTerminator(buff, startAddr);
    CStringIsPrefix(str[..], result, AddressedDump(buff, startAddr));
  }
}
