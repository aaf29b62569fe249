/** Short identifiers: eight bytes that are written either as seven bytes in hexadecimal, behind a zero
    byte, or as a name of up to eight letters, digits and hyphens, padded with zero bytes. */
module ShortId {
  import opened Basics
  import opened Text

  type Byte = x: int | 0 <= x < 256

  type Id = seq<Byte>

  // ---- Hexadecimal

  predicate IsHexDigit(c: char) { IsDigit(c) || 'a' <= c <= 'f' || 'A' <= c <= 'F' }

  function HexValue(c: char): (v: int)
    requires IsHexDigit(c)
    ensures 0 <= v < 16 && HexDigit(v) == LowerChar(c)
  {
    if IsDigit(c) then (c - '0') as int
    else if IsLower(c) then (c - 'a') as int + 10
    else (c - 'A') as int + 10
  }

  function HexDigit(v: int): (c: char)
    requires 0 <= v < 16
    ensures IsHexDigit(c)
  {
    if v < 10 then '0' + v as char else 'a' + (v - 10) as char
  }

  lemma DigitHasItsValue(v: int)
    requires 0 <= v < 16
    ensures HexValue(HexDigit(v)) == v
  {
  }

  /** `hex::encode` */
  function HexEncode(bytes: seq<Byte>): (s: string)
    ensures |s| == 2 * |bytes| && forall i :: 0 <= i < |s| ==> IsHexDigit(s[i])
  {
    if bytes == [] then [] else HexOf(bytes[0]) + HexEncode(bytes[1..])
  }

  predicate AllHex(s: string) {
    forall i :: 0 <= i < |s| ==> IsHexDigit(s[i])
  }

  function HexPair(a: char, b: char): Byte
    requires IsHexDigit(a) && IsHexDigit(b)
  {
    HexValue(a) * 16 + HexValue(b)
  }

  function HexDecode(s: string): (bytes: seq<Byte>)
    requires |s| % 2 == 0 && AllHex(s)
    ensures 2 * |bytes| == |s|
  {
    if s == [] then [] else [HexPair(s[0], s[1])] + HexDecode(s[2..])
  }

  /** `hex::encode` of one byte. */
  function HexOf(b: Byte): string {
    [HexDigit(b / 16), HexDigit(b % 16)]
  }

  lemma PairPrints(a: char, b: char)
    requires IsHexDigit(a) && IsHexDigit(b)
    ensures HexOf(HexPair(a, b)) == [LowerChar(a), LowerChar(b)]
  {
    assert HexPair(a, b) / 16 == HexValue(a) && HexPair(a, b) % 16 == HexValue(b);
  }

  lemma ByteReads(b: Byte)
    ensures HexPair(HexOf(b)[0], HexOf(b)[1]) == b
  {
    DigitHasItsValue(b / 16);
    DigitHasItsValue(b % 16);
  }

  lemma LowerOfTwo(s: string)
    requires |s| >= 2
    ensures ToLower(s) == [LowerChar(s[0]), LowerChar(s[1])] + ToLower(s[2..])
  {
    assert s == s[..2] + s[2..];
    LowerAppend(s[..2], s[2..]);
    var two := ToLower(s[..2]);
    assert two == [two[0], two[1]];
  }

  lemma {:induction false} EncodeUndoesDecode(s: string)
    requires |s| % 2 == 0 && AllHex(s)
    ensures HexEncode(HexDecode(s)) == ToLower(s)
  {
    if s != [] {
      EncodeUndoesDecode(s[2..]);
      LowerOfTwo(s);
      PairPrints(s[0], s[1]);
      assert HexDecode(s)[1..] == HexDecode(s[2..]);
    }
  }

  lemma {:induction false} DecodeUndoesEncode(bytes: seq<Byte>)
    ensures HexDecode(HexEncode(bytes)) == bytes
  {
    if bytes != [] {
      var s := HexEncode(bytes);
      assert s[2..] == HexEncode(bytes[1..]);
      DecodeUndoesEncode(bytes[1..]);
      ByteReads(bytes[0]);
      assert HexDecode(s)[0] == bytes[0];
    }
  }

  lemma {:induction false} DecodeAt(s: string, k: nat)
    requires |s| % 2 == 0 && AllHex(s) && 2 * k < |s|
    ensures HexDecode(s)[k] == HexPair(s[2 * k], s[2 * k + 1])
  {
    if k > 0 { DecodeAt(s[2..], k - 1); }
  }

  // ---- Names

  predicate IsNameChar(c: char) { IsAlphanumeric(c) || c == '-' }

  predicate IsValidShortId(s: string) {
    s != [] && |s| <= 8 && forall i :: 0 <= i < |s| ==> IsNameChar(s[i])
  }

  function Zeros(n: nat): (z: seq<Byte>)
    ensures |z| == n && forall i :: 0 <= i < n ==> z[i] == 0
  {
    if n == 0 then [] else [0] + Zeros(n - 1)
  }

  function Bytes(s: string): (b: seq<Byte>)
    requires forall i :: 0 <= i < |s| ==> IsNameChar(s[i])
    ensures |b| == |s| && forall i :: 0 <= i < |s| ==> b[i] == s[i] as int
  {
    if s == [] then []
    else
      assert IsNameChar(s[0]);
      [s[0] as int] + Bytes(s[1..])
  }

  function NameId(s: string): Id
    requires IsValidShortId(s)
  {
    Bytes(s) + Zeros(8 - |s|)
  }

  // ---- Reading and printing

  predicate IsHexForm(s: string) { |s| == 14 && AllHex(s) }

  function Parse(s: string): Option<Id> {
    if IsHexForm(s) then Some([0] + HexDecode(s))
    else if IsValidShortId(ToLower(s)) then Some(NameId(ToLower(s)))
    else None
  }

  ghost predicate IsHexText(s: string) {
    |s| == 14 && forall i :: 0 <= i < |s| ==> '0' <= s[i] <= '9' || 'a' <= s[i] <= 'f' || 'A' <= s[i] <= 'F'
  }

  ghost predicate IsNameText(s: string) {
    && 1 <= |s| <= 8
    && forall i :: 0 <= i < |s| ==> '0' <= s[i] <= '9' || 'a' <= s[i] <= 'z' || 'A' <= s[i] <= 'Z' || s[i] == '-'
  }

  /** Exactly fourteen hexadecimal digits, or one to eight letters, digits and hyphens, are accepted. */
  lemma AcceptedIff(s: string)
    ensures Parse(s).Some? <==> IsHexText(s) || IsNameText(s)
  {
    var l := ToLower(s);
    forall i | 0 <= i < |s|
      ensures IsNameChar(l[i]) <==>
              '0' <= s[i] <= '9' || 'a' <= s[i] <= 'z' || 'A' <= s[i] <= 'Z' || s[i] == '-'
    {
      assert l[i] == LowerChar(s[i]);
    }
  }

  /** `From<[u8; 7]>` */
  function OfBytes(bytes: seq<Byte>): Id
    requires |bytes| == 7
  {
    [0] + bytes
  }

  /** The length up to the last byte that is not zero. */
  function UsedLength(id: seq<Byte>): (n: nat)
    ensures n <= |id| && (n > 0 ==> id[n - 1] != 0) && forall i :: n <= i < |id| ==> id[i] == 0
  {
    if id == [] then 0 else if id[|id| - 1] != 0 then |id| else UsedLength(id[..|id| - 1])
  }

  /** Bytes as text; the ids of the program hold ASCII only. */
  function Chars(b: seq<Byte>): (s: string)
    ensures |s| == |b| && forall i :: 0 <= i < |b| ==> s[i] == b[i] as char
  {
    if b == [] then [] else [b[0] as char] + Chars(b[1..])
  }

  function Print(id: Id): string
    requires |id| == 8
  {
    if id[0] == 0 then HexEncode(id[1..]) else Chars(id[..UsedLength(id)])
  }

  /** The ids that the program can hold: seven bytes, or a name in lower case. */
  ghost predicate Reachable(id: Id) {
    |id| == 8 && (id[0] == 0 || exists s :: IsValidShortId(s) && ToLower(s) == s && id == NameId(s))
  }

  lemma {:induction false} NamePrints(s: string)
    requires IsValidShortId(s)
    ensures |NameId(s)| == 8 && NameId(s)[0] != 0 && Print(NameId(s)) == s
  {
    var b := Bytes(s);
    NameHasEnds(s);
    PaddedPrints(b, 8 - |s|);
    CharsOfBytes(s);
    assert NameId(s) == b + Zeros(8 - |s|);
  }

  lemma NameHasEnds(s: string)
    requires IsValidShortId(s)
    ensures var b := Bytes(s); b[0] != 0 && b[|b| - 1] != 0
  {
    assert IsNameChar(s[0]) && IsNameChar(s[|s| - 1]);
  }

  lemma {:induction false} PaddedPrints(b: seq<Byte>, n: nat)
    requires |b| + n == 8 && b != [] && b[0] != 0 && b[|b| - 1] != 0
    ensures var id := b + Zeros(n); |id| == 8 && id[0] != 0 && Print(id) == Chars(b)
  {
    var id := b + Zeros(n);
    assert id[|b| - 1] == b[|b| - 1];
    assert UsedLength(id) == |b|;
    assert id[..|b|] == b;
  }

  lemma CharsOfBytes(s: string)
    requires forall i :: 0 <= i < |s| ==> IsNameChar(s[i])
    ensures Chars(Bytes(s)) == s
  {
    var t := Chars(Bytes(s));
    forall i | 0 <= i < |s| ensures t[i] == s[i] {
      assert Bytes(s)[i] == s[i] as int;
    }
  }

  lemma LowerTwice(s: string)
    ensures ToLower(ToLower(s)) == ToLower(s)
  {
  }

  /** Every text that is accepted names a reachable id, and printing that id gives the text in lower
      case. */
  lemma ParsedPrintsBack(s: string)
    requires Parse(s).Some?
    ensures Reachable(Parse(s).value) && Print(Parse(s).value) == ToLower(s)
  {
    if IsHexForm(s) {
      assert Parse(s).value[1..] == HexDecode(s);
      EncodeUndoesDecode(s);
    } else {
      LowerTwice(s);
      NamePrints(ToLower(s));
    }
  }

  lemma HexParsesBack(bytes: seq<Byte>)
    requires |bytes| == 7
    ensures Parse(HexEncode(bytes)) == Some([0] + bytes)
  {
    DecodeUndoesEncode(bytes);
  }

  /** Every reachable id is read back from its printed form. */
  lemma PrintedParsesBack(id: Id)
    requires Reachable(id)
    ensures Parse(Print(id)) == Some(id)
  {
    if id[0] == 0 {
      HexParsesBack(id[1..]);
      assert id == [0] + id[1..];
    } else {
      var s :| IsValidShortId(s) && ToLower(s) == s && id == NameId(s);
      NamePrints(s);
      NameParses(s);
    }
  }

  lemma NameParses(s: string)
    requires IsValidShortId(s) && ToLower(s) == s
    ensures Parse(s) == Some(NameId(s))
  {
  }

  lemma BytesAreReachable(bytes: seq<Byte>)
    requires |bytes| == 7
    ensures Reachable(OfBytes(bytes)) && Print(OfBytes(bytes)) == HexEncode(bytes)
  {
    assert OfBytes(bytes)[1..] == bytes;
  }

  lemma PrintIsInjective(a: Id, b: Id)
    requires Reachable(a) && Reachable(b) && Print(a) == Print(b)
    ensures a == b
  {
    PrintedParsesBack(a);
    PrintedParsesBack(b);
  }

  // ---- The reader

  /** The bytes of a character in UTF-8. */
  function Width(c: char): (n: nat)
    ensures 1 <= n <= 4
  {
    var v := c as int;
    if v < 0x80 then 1 else if v < 0x800 then 2 else if v < 0x10000 then 3 else 4
  }

  /** `str::len` */
  function ByteLength(s: string): (n: nat)
    ensures s != [] ==> n > 0
  {
    if s == [] then 0 else Width(s[0]) + ByteLength(s[1..])
  }

  lemma {:induction false} HexPrefix(s: string, k: nat)
    requires k <= |s| && AllHex(s[..k])
    ensures ByteLength(s) == k + ByteLength(s[k..])
  {
    if k > 0 {
      assert s[..k][0] == s[0] && IsHexDigit(s[0]);
      assert s[1..][..k - 1] == s[..k][1..] && s[1..][k - 1..] == s[k..];
      var rest := s[..k][1..];
      assert forall i :: 0 <= i < |rest| ==> rest[i] == s[..k][i + 1];
      HexPrefix(s[1..], k - 1);
    }
  }

  lemma {:induction false} NamesAreAscii(s: string)
    requires forall i :: 0 <= i < |s| ==> IsNameChar(LowerChar(s[i]))
    ensures ByteLength(s) == |s|
  {
    if s != [] {
      assert IsNameChar(LowerChar(s[0]));
      var rest := s[1..];
      assert forall i :: 0 <= i < |rest| ==> rest[i] == s[i + 1];
      NamesAreAscii(rest);
    }
  }

  lemma HexFormHasFourteenBytes(s: string)
    requires IsHexForm(s)
    ensures ByteLength(s) == 14
  {
    assert s[..14] == s && s[14..] == [];
    HexPrefix(s, 14);
  }

  /** After fewer than 14 digits of 14 bytes there is another character. */
  lemma NextDigit(s: string, n: nat)
    requires ByteLength(s) == 14 && n < 14 && n <= |s| && AllHex(s[..n])
    ensures n < |s| && (if IsHexDigit(s[n]) then AllHex(s[..n + 1]) else !IsHexForm(s))
  {
    HexPrefix(s, n);
    assert s[..n + 1] == s[..n] + [s[n]];
  }

  lemma PairsDecode(s: string, bytes: seq<Byte>)
    requires IsHexForm(s) && |bytes| == 7
    requires forall k :: 0 <= k < 7 ==> bytes[k] == HexPair(s[2 * k], s[2 * k + 1])
    ensures bytes == HexDecode(s)
  {
    forall k | 0 <= k < 7 ensures bytes[k] == HexDecode(s)[k] {
      DecodeAt(s, k);
    }
  }

  /** `decode_to_slice` into `id[1..]`: it counts bytes, and on a bad digit it leaves what it has written. */
  method DecodeInto(s: string, id: array<Byte>) returns (ok: bool)
    requires id.Length == 8
    modifies id
    ensures ok <==> IsHexForm(s)
    ensures ok ==> id[..] == [old(id[0])] + HexDecode(s)
    ensures ByteLength(s) != 14 ==> id[..] == old(id[..])
  {
    if ByteLength(s) != 14 {
      assert !IsHexForm(s) by {
        if IsHexForm(s) { HexFormHasFourteenBytes(s); }
      }
      return false;
    }
    for i := 0 to 7
      invariant id[0] == old(id[0])
      invariant 2 * i <= |s| && AllHex(s[..2 * i])
      invariant forall k :: 0 <= k < i ==> id[1 + k] == HexPair(s[..2 * i][2 * k], s[..2 * i][2 * k + 1])
    {
      NextDigit(s, 2 * i);
      if !IsHexDigit(s[2 * i]) {
        return false;
      }
      NextDigit(s, 2 * i + 1);
      if !IsHexDigit(s[2 * i + 1]) {
        return false;
      }
      id[1 + i] := HexPair(s[2 * i], s[2 * i + 1]);
    }
    HexPrefix(s, 14);
    assert s[14..] == [] && s[..14] == s;
    PairsDecode(s, id[1..]);
    return true;
  }

  method FromStr(s: string) returns (r: Option<Id>)
    ensures r == Parse(s)
  {
    var id := new Byte[8](_ => 0);
    var ok := DecodeInto(s, id);
    if ok {
      return Some(id[..]);
    }
    var lower := ToLower(s);
    if !IsValidShortId(lower) {
      return None;
    }
    assert ByteLength(s) == |s| by {
      assert forall i :: 0 <= i < |s| ==> lower[i] == LowerChar(s[i]);
      NamesAreAscii(s);
    }
    CopyInto(Bytes(lower), id);
    return Some(id[..]);
  }

  /** `copy_from_slice` to the front of an array of zeros. */
  method CopyInto(bytes: seq<Byte>, id: array<Byte>)
    requires id.Length == 8 && |bytes| <= 8 && forall k :: 0 <= k < 8 ==> id[k] == 0
    modifies id
    ensures id[..] == bytes + Zeros(8 - |bytes|)
  {
    for i := 0 to |bytes|
      invariant forall k :: 0 <= k < i ==> id[k] == bytes[k]
      invariant forall k :: i <= k < 8 ==> id[k] == 0
    {
      id[i] := bytes[i];
    }
  }
}
