/** Session ids, tenants, and the key under which a session's jar is kept. */
module Sessions {
  import opened Wrappers

  // ----- session ids -----

  // A byte, with its bit operations as arithmetic: x >> 4 is x / 16, x & 0x0f is x % 16, x & 0x3f is
  // x % 64, and setting bits that are clear is a sum.
  newtype Byte = x: int | 0 <= x < 256

  const HEX_DIGITS := "0123456789abcdef"

  function HexDigit(n: Byte): char
    requires n < 16
  {
    HEX_DIGITS[n]
  }

  // %x on a byte slice: two lower-case digits a byte.
  function Hex(bytes: seq<Byte>): (s: string)
    ensures |s| == 2 * |bytes|
  {
    seq(2 * |bytes|, i requires 0 <= i < 2 * |bytes| =>
      if i % 2 == 0 then HexDigit(bytes[i / 2] / 16) else HexDigit(bytes[i / 2] % 16))
  }

  // Version and variant bits, section 5.4 of RFC 9562.
  function Stamp(random: seq<Byte>): (uuid: seq<Byte>)
    requires |random| == 16
    ensures |uuid| == 16
  {
    random[6 := random[6] % 16 + 0x40][8 := random[8] % 64 + 0x80]
  }

  function NewUuid(random: seq<Byte>): string
    requires |random| == 16
  {
    var u := Stamp(random);
    Hex(u[0..4]) + "-" + Hex(u[4..6]) + "-" + Hex(u[6..8]) + "-" + Hex(u[8..10]) + "-" + Hex(u[10..16])
  }

  predicate IsHexChar(c: char) {
    '0' <= c <= '9' || 'a' <= c <= 'f'
  }

  predicate IsDashAt(i: int) {
    i == 8 || i == 13 || i == 18 || i == 23
  }

  /** The recogniser for incoming session ids, position by position. */
  predicate IsValidSessionId(s: string) {
    && |s| == 36
    && (forall i :: 0 <= i < 36 ==> if IsDashAt(i) then s[i] == '-' else IsHexChar(s[i]))
    && s[14] == '4'
    && (s[19] == '8' || s[19] == '9' || s[19] == 'a' || s[19] == 'b')
  }

  lemma HexCharsAreHex(bytes: seq<Byte>)
    ensures forall i :: 0 <= i < |Hex(bytes)| ==> IsHexChar(Hex(bytes)[i])
  {
  }

  /** Whatever the 16 random bytes are, the generated id passes the server's own recogniser. */
  lemma NewUuidIsValid(random: seq<Byte>)
    requires |random| == 16
    ensures IsValidSessionId(NewUuid(random))
  {
    var u := Stamp(random);
    HexCharsAreHex(u[0..4]);
    HexCharsAreHex(u[4..6]);
    HexCharsAreHex(u[6..8]);
    HexCharsAreHex(u[8..10]);
    HexCharsAreHex(u[10..16]);
    assert u[6..8][0] / 16 == 4;
    assert Hex(u[6..8])[0] == HexDigit(4);
    var n := u[8..10][0] / 16;
    assert Hex(u[8..10])[0] == HexDigit(n);
    assert n == 8 || n == 9 || n == 10 || n == 11;
  }

  lemma HexDigitInjective(m: Byte, n: Byte)
    requires m < 16 && n < 16 && HexDigit(m) == HexDigit(n)
    ensures m == n
  {
    assert HEX_DIGITS[m] == HEX_DIGITS[n];
  }

  lemma HexInjective(a: seq<Byte>, b: seq<Byte>)
    requires Hex(a) == Hex(b)
    ensures a == b
  {
    assert |Hex(a)| == 2 * |a| && |Hex(b)| == 2 * |b|;
    forall i | 0 <= i < |a| ensures a[i] == b[i] {
      assert Hex(a)[2 * i] == Hex(b)[2 * i] && Hex(a)[2 * i + 1] == Hex(b)[2 * i + 1];
      assert (2 * i) % 2 == 0 && (2 * i) / 2 == i && (2 * i + 1) % 2 == 1 && (2 * i + 1) / 2 == i;
      HexDigitInjective(a[i] / 16, b[i] / 16);
      HexDigitInjective(a[i] % 16, b[i] % 16);
    }
  }

  // The five groups of digits, read back from an id.
  lemma UuidGroups(random: seq<Byte>)
    requires |random| == 16
    ensures var u, s := Stamp(random), NewUuid(random);
            && |s| == 36
            && Hex(u[0..4]) == s[0..8] && Hex(u[4..6]) == s[9..13] && Hex(u[6..8]) == s[14..18]
            && Hex(u[8..10]) == s[19..23] && Hex(u[10..16]) == s[24..36]
  {
    hide HexDigit, Stamp;
  }

  lemma GroupsJoin(u: seq<Byte>)
    requires |u| == 16
    ensures u == u[0..4] + u[4..6] + u[6..8] + u[8..10] + u[10..16]
  {
  }

  /** Two ids collide only when the random bytes agree outside the six fixed bits. */
  lemma NewUuidKeepsRandomness(r1: seq<Byte>, r2: seq<Byte>)
    requires |r1| == 16 && |r2| == 16
    ensures NewUuid(r1) == NewUuid(r2) <==> Stamp(r1) == Stamp(r2)
  {
    if NewUuid(r1) == NewUuid(r2) {
      hide Hex, Stamp, NewUuid;
      var u, v := Stamp(r1), Stamp(r2);
      UuidGroups(r1);
      UuidGroups(r2);
      HexInjective(u[0..4], v[0..4]);
      HexInjective(u[4..6], v[4..6]);
      HexInjective(u[6..8], v[6..8]);
      HexInjective(u[8..10], v[8..10]);
      HexInjective(u[10..16], v[10..16]);
      GroupsJoin(u);
      GroupsJoin(v);
    }
  }

  function HexValue(c: char): Byte
    requires IsHexChar(c)
  {
    if c <= '9' then (c - '0') as Byte else (c - 'a') as Byte + 10
  }

  lemma HexValueOfDigit(c: char)
    requires IsHexChar(c)
    ensures HexValue(c) < 16 && HexDigit(HexValue(c)) == c
  {
    if c <= '9' {
      assert HEX_DIGITS[..10] == "0123456789";
      assert HEX_DIGITS[(c - '0') as int] == c;
    } else {
      assert HEX_DIGITS[10..] == "abcdef";
      assert HEX_DIGITS[(c - 'a') as int + 10] == c;
    }
  }

  // The bytes whose digits these are.
  function FromHex(s: string): (bytes: seq<Byte>)
    requires |s| % 2 == 0 && forall i :: 0 <= i < |s| ==> IsHexChar(s[i])
    ensures |bytes| == |s| / 2
  {
    seq(|s| / 2, i requires 0 <= i < |s| / 2 =>
      HexValueOfDigit(s[2 * i]);
      HexValueOfDigit(s[2 * i + 1]);
      HexValue(s[2 * i]) * 16 + HexValue(s[2 * i + 1]))
  }

  lemma FromHexAt(s: string, j: nat)
    requires |s| % 2 == 0 && (forall i :: 0 <= i < |s| ==> IsHexChar(s[i])) && 2 * j + 1 < |s|
    ensures HexDigit(FromHex(s)[j] / 16) == s[2 * j] && HexDigit(FromHex(s)[j] % 16) == s[2 * j + 1]
  {
    HexValueOfDigit(s[2 * j]);
    HexValueOfDigit(s[2 * j + 1]);
    hide HexDigit, HexValue;
    var h, l := HexValue(s[2 * j]), HexValue(s[2 * j + 1]);
    assert FromHex(s)[j] == h * 16 + l;
    assert (h * 16 + l) / 16 == h && (h * 16 + l) % 16 == l;
  }

  lemma HexAt(bytes: seq<Byte>, j: nat)
    requires j < |bytes|
    ensures Hex(bytes)[2 * j] == HexDigit(bytes[j] / 16) && Hex(bytes)[2 * j + 1] == HexDigit(bytes[j] % 16)
  {
    hide HexDigit;
    assert (2 * j) % 2 == 0 && (2 * j) / 2 == j && (2 * j + 1) % 2 == 1 && (2 * j + 1) / 2 == j;
  }

  lemma HexFromHex(s: string)
    requires |s| % 2 == 0 && forall i :: 0 <= i < |s| ==> IsHexChar(s[i])
    ensures Hex(FromHex(s)) == s
  {
    hide Hex, FromHex, HexDigit, IsHexChar;
    forall i | 0 <= i < |s| ensures Hex(FromHex(s))[i] == s[i] {
      var j := i / 2;
      FromHexAt(s, j);
      HexAt(FromHex(s), j);
      assert i == 2 * j || i == 2 * j + 1;
    }
  }

  // The 32 digits of an id, and the bytes they spell.
  function Digits(s: string): string
    requires |s| == 36
  {
    s[0..8] + s[9..13] + s[14..18] + s[19..23] + s[24..36]
  }

  lemma DigitsAreHex(s: string)
    requires IsValidSessionId(s)
    ensures |Digits(s)| == 32 && forall i :: 0 <= i < 32 ==> IsHexChar(Digits(s)[i])
  {
  }

  lemma DigitsAt(s: string)
    requires |s| == 36
    ensures var d := Digits(s);
            |d| == 32 && d[0..8] == s[0..8] && d[8..12] == s[9..13] && d[12..16] == s[14..18] && d[16..20] == s[19..23] && d[20..32] == s[24..36]
  {
  }

  lemma FromHexParts(d: string, i: nat, j: nat)
    requires |d| % 2 == 0 && (forall k :: 0 <= k < |d| ==> IsHexChar(d[k])) && 2 * i <= 2 * j <= |d|
    ensures Hex(FromHex(d)[i..j]) == d[2 * i..2 * j]
  {
    hide Hex, HexDigit, HexValue, IsHexChar;
    var part := d[2 * i..2 * j];
    assert forall k :: 0 <= k < |part| ==> part[k] == d[2 * i + k];
    HexFromHex(part);
    FromHexPart(d, i, j);
  }

  lemma FromHexPart(d: string, i: nat, j: nat)
    requires |d| % 2 == 0 && (forall k :: 0 <= k < |d| ==> IsHexChar(d[k])) && 2 * i <= 2 * j <= |d|
    ensures FromHex(d)[i..j] == FromHex(d[2 * i..2 * j])
  {
    hide HexDigit, HexValue, IsHexChar;
    var part := d[2 * i..2 * j];
    forall k | 0 <= k < j - i ensures FromHex(d)[i..j][k] == FromHex(part)[k] {
      assert part[2 * k] == d[2 * (i + k)] && part[2 * k + 1] == d[2 * (i + k) + 1];
    }
  }

  /** The recogniser accepts exactly the ids that can be generated. */
  lemma ValidExactlyGenerated(s: string)
    ensures IsValidSessionId(s) <==> exists random: seq<Byte> :: |random| == 16 && NewUuid(random) == s
  {
    if IsValidSessionId(s) {
      var random := UuidBytes(s);
      assert NewUuid(random) == s;
    }
    forall random: seq<Byte> | |random| == 16 && NewUuid(random) == s ensures IsValidSessionId(s) {
      NewUuidIsValid(random);
    }
  }

  // The bytes of a valid id; they have version and variant already.
  lemma UuidBytes(s: string) returns (random: seq<Byte>)
    requires IsValidSessionId(s)
    ensures |random| == 16 && NewUuid(random) == s
  {
    DigitsAreHex(s);
    DigitsAt(s);
    DashesAt(s);
    StampedAlready(s);
    hide Hex, FromHex, Stamp, IsHexChar, Digits, IsValidSessionId;
    var d := Digits(s);
    random := FromHex(d);
    FromHexParts(d, 0, 4);
    FromHexParts(d, 4, 6);
    FromHexParts(d, 6, 8);
    FromHexParts(d, 8, 10);
    FromHexParts(d, 10, 16);
  }

  lemma DashesAt(s: string)
    requires IsValidSessionId(s)
    ensures s == s[0..8] + "-" + s[9..13] + "-" + s[14..18] + "-" + s[19..23] + "-" + s[24..36]
  {
  }

  lemma StampedAlready(s: string)
    requires IsValidSessionId(s) && |Digits(s)| == 32 && forall i :: 0 <= i < 32 ==> IsHexChar(Digits(s)[i])
    ensures Stamp(FromHex(Digits(s))) == FromHex(Digits(s))
  {
    var d := Digits(s);
    assert d[12] == s[14] && d[16] == s[19];
    FixedDigits(s[14], s[19]);
    hide Digits, IsValidSessionId, HexDigit, IsHexChar, HexValue;
    var r := FromHex(d);
    ByteOfDigits(d, 6);
    ByteOfDigits(d, 8);
    FixedBits(HexValue(d[12]), HexValue(d[13]), HexValue(d[16]), HexValue(d[17]));
    assert r[6] % 16 + 0x40 == r[6] && r[8] % 64 + 0x80 == r[8];
  }

  lemma FixedDigits(version: char, variant: char)
    requires version == '4' && (variant == '8' || variant == '9' || variant == 'a' || variant == 'b')
    ensures HexValue(version) == 4 && 8 <= HexValue(variant) < 12
  {
  }

  lemma ByteOfDigits(d: string, j: nat)
    requires |d| % 2 == 0 && (forall i :: 0 <= i < |d| ==> IsHexChar(d[i])) && 2 * j + 1 < |d|
    ensures HexValue(d[2 * j]) < 16 && HexValue(d[2 * j + 1]) < 16
    ensures FromHex(d)[j] == HexValue(d[2 * j]) * 16 + HexValue(d[2 * j + 1])
  {
    HexValueOfDigit(d[2 * j]);
    HexValueOfDigit(d[2 * j + 1]);
    hide HexValue, HexDigit, IsHexChar;
  }

  lemma FixedBits(h6: Byte, l6: Byte, h8: Byte, l8: Byte)
    requires h6 == 4 && l6 < 16 && 8 <= h8 < 12 && l8 < 16
    ensures (h6 * 16 + l6) % 16 + 0x40 == h6 * 16 + l6 && (h8 * 16 + l8) % 64 + 0x80 == h8 * 16 + l8
  {
  }

  // ----- tenants -----

  datatype Mode = Auto | Managed

  datatype Tenant = Tenant(id: string, mode: Mode) {
    function JarKey(sessionId: string): string {
      id + ":" + sessionId
    }
  }

  /** The resolver: a managed tenant needs a token store, an id and a valid token. */
  function Resolve(store: Option<(string, string) -> bool>, tid: string, tok: string, sessionId: string): Tenant {
    if store.Some? && tid != "" && store.value(tid, tok) then Tenant(tid, Managed)
    else Tenant(sessionId, Auto)
  }

  /**
    The session part of a request: an invalid or missing id is replaced by a fresh one, and an
    automatic tenant takes the session as its tenant.
   */
  function Bootstrap(cookieSid: string, store: Option<(string, string) -> bool>, tid: string, tok: string, random: seq<Byte>): (Tenant, string)
    requires |random| == 16
  {
    var sid := if IsValidSessionId(cookieSid) then cookieSid else "";
    var t := Resolve(store, tid, tok, sid);
    if sid != "" then (t, sid)
    else
      var newSid := NewUuid(random);
      (if t.mode == Auto then t.(id := newSid) else t, newSid)
  }

  /** Every request ends up with a valid session id, its own when that is valid, and an automatic tenant is the session. */
  lemma BootstrapSession(cookieSid: string, store: Option<(string, string) -> bool>, tid: string, tok: string, random: seq<Byte>)
    requires |random| == 16
    ensures var (t, sid) := Bootstrap(cookieSid, store, tid, tok, random);
            && IsValidSessionId(sid)
            && (IsValidSessionId(cookieSid) ==> sid == cookieSid)
            && (t.mode == Auto ==> t.id == sid)
            && (t.mode == Managed <==> store.Some? && tid != "" && store.value(tid, tok))
            && (t.mode == Managed ==> t.id == tid)
  {
    NewUuidIsValid(random);
  }

  /** The jar key determines tenant and session, even when the tenant id contains colons. */
  lemma JarKeyInjective(t1: Tenant, s1: string, t2: Tenant, s2: string)
    requires IsValidSessionId(s1) && IsValidSessionId(s2)
    ensures t1.JarKey(s1) == t2.JarKey(s2) <==> t1.id == t2.id && s1 == s2
  {
    var k1, k2 := t1.JarKey(s1), t2.JarKey(s2);
    assert k1[|k1| - 36..] == s1 && k2[|k2| - 36..] == s2;
    assert k1[..|k1| - 37] == t1.id && k2[..|k2| - 37] == t2.id;
  }

  /** Without the check on session ids the key would be ambiguous. */
  lemma JarKeyNeedsValidSessions()
    ensures Tenant("a:b", Managed).JarKey("c") == Tenant("a", Managed).JarKey("b:c")
  {
    assert "a:b" + ":" + "c" == "a" + ":" + "b:c";
  }
}
