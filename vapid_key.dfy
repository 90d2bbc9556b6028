/** `urlBase64ToUint8Array`: the VAPID public key, written in the URL-safe
    base64 alphabet of section 5 of RFC 4648 without padding, is padded,
    rewritten into the standard alphabet of section 4, decoded with `atob`
    and copied into a byte array. */
module VapidKey {
  import opened Wrappers

  type Byte = x: int | 0 <= x < 256

  // ------------------------------------------------------------ the alphabets

  /** A character of the standard base64 alphabet (section 4 of RFC 4648). */
  predicate IsStdChar(c: char) {
    ('A' <= c <= 'Z') || ('a' <= c <= 'z') || ('0' <= c <= '9') || c == '+' || c == '/'
  }

  /** The 6-bit value a standard alphabet character stands for. */
  function Sextet(c: char): (v: int)
    requires IsStdChar(c)
    ensures 0 <= v < 64
  {
    if 'A' <= c <= 'Z' then c as int - 'A' as int
    else if 'a' <= c <= 'z' then c as int - 'a' as int + 26
    else if '0' <= c <= '9' then c as int - '0' as int + 52
    else if c == '+' then 62
    else 63
  }

  /** The standard alphabet character for a 6-bit value. */
  function StdChar(v: int): (c: char)
    requires 0 <= v < 64
    ensures IsStdChar(c) && Sextet(c) == v
  {
    if v < 26 then ('A' as int + v) as char
    else if v < 52 then ('a' as int + v - 26) as char
    else if v < 62 then ('0' as int + v - 52) as char
    else if v == 62 then '+'
    else '/'
  }

  /** The URL-safe alphabet (section 5 of RFC 4648): `-` and `_` replace `+` and `/`. */
  function UrlChar(v: int): char
    requires 0 <= v < 64
  {
    if v == 62 then '-' else if v == 63 then '_' else StdChar(v)
  }

  predicate AllSextets(v: seq<int>) {
    forall i :: 0 <= i < |v| ==> 0 <= v[i] < 64
  }

  // ------------------------------------------------------------ encoding (the key's producer)

  /** The four 6-bit groups of three bytes. */
  function Encode3(b0: Byte, b1: Byte, b2: Byte): (g: seq<int>)
    ensures |g| == 4 && AllSextets(g)
  {
    [b0 / 4, b0 % 4 * 16 + b1 / 16, b1 % 16 * 4 + b2 / 64, b2 % 64]
  }

  /** The 6-bit groups of a byte string, without padding: each 3 bytes give 4
      groups; a final 2 bytes or 1 byte, filled up with zero bits on the
      right, give 3 or 2 groups. */
  function Sextets(b: seq<Byte>): (v: seq<int>)
    ensures AllSextets(v)
  {
    if |b| >= 3 then Encode3(b[0], b[1], b[2]) + Sextets(b[3..])
    else if |b| == 2 then Encode3(b[0], b[1], 0)[..3]
    else if |b| == 1 then Encode3(b[0], 0, 0)[..2]
    else []
  }

  /** 6-bit groups written in the standard alphabet, without padding. */
  function StdText(v: seq<int>): (e: string)
    requires AllSextets(v)
    ensures |e| == |v| && forall k :: 0 <= k < |e| ==> IsStdChar(e[k])
  {
    seq(|v|, i requires 0 <= i < |v| => StdChar(v[i]))
  }

  /** The base64url encoding of b without padding: how a VAPID public key is written. */
  function UrlEncodeNoPad(b: seq<Byte>): string {
    var v := Sextets(b);
    seq(|v|, i requires 0 <= i < |v| => UrlChar(v[i]))
  }

  // ------------------------------------------------------------ atob

  /** ASCII white space, which forgiving base64 decoding skips. */
  predicate IsAsciiSpace(c: char) {
    c == '\t' || c == '\n' || c == '\U{C}' || c == '\r' || c == ' '
  }

  function RemoveAsciiSpace(s: string): string {
    if s == [] then [] else (if IsAsciiSpace(s[0]) then [] else [s[0]]) + RemoveAsciiSpace(s[1..])
  }

  /** Removing one or two trailing `=`. */
  function DropPadding(s: string): string {
    if |s| >= 2 && s[|s| - 2] == '=' && s[|s| - 1] == '=' then s[..|s| - 2]
    else if |s| >= 1 && s[|s| - 1] == '=' then s[..|s| - 1]
    else s
  }

  /** The three bytes four 6-bit groups stand for. */
  function Decode4(g: seq<int>): (b: seq<Byte>)
    requires |g| == 4 && AllSextets(g)
    ensures |b| == 3
  {
    [g[0] * 4 + g[1] / 16, g[1] % 16 * 16 + g[2] / 4, g[2] % 4 * 64 + g[3]]
  }

  /** Reassembling bytes from 6-bit groups: 4 groups give 3 bytes; a final 3
      or 2 groups are read as if filled up with zero groups, and only the
      whole bytes, 2 or 1, are kept. */
  function Unsextets(v: seq<int>): (b: seq<Byte>)
    requires AllSextets(v) && |v| % 4 != 1
  {
    if |v| >= 4 then Decode4(v[..4]) + Unsextets(v[4..])
    else if |v| == 3 then Decode4(v + [0])[..2]
    else if |v| == 2 then Decode4(v + [0, 0])[..1]
    else []
  }

  /** The 6-bit values of a text in the standard alphabet. */
  function SextetValues(d: string): (v: seq<int>)
    requires forall k :: 0 <= k < |d| ==> IsStdChar(d[k])
    ensures |v| == |d| && AllSextets(v)
  {
    seq(|d|, i requires 0 <= i < |d| => Sextet(d[i]))
  }

  /** A byte string as JavaScript holds it: one character per byte. */
  function BinaryString(b: seq<Byte>): (s: string)
    ensures |s| == |b| && forall i :: 0 <= i < |b| ==> s[i] as int == b[i]
  {
    seq(|b|, i requires 0 <= i < |b| => b[i] as char)
  }

  /** `window.atob(data)`, the forgiving base64 decode of the HTML standard:
      skip ASCII white space; when the length is a multiple of 4 drop one or
      two trailing `=`; fail (throw) when the length is then 1 more than a
      multiple of 4 or a character is outside the standard alphabet;
      otherwise decode. */
  function Atob(data: string): (r: Option<string>)
    ensures r.Some? ==> forall i :: 0 <= i < |r.value| ==> r.value[i] as int < 256
  {
    var d0 := RemoveAsciiSpace(data);
    var d := if |d0| % 4 == 0 then DropPadding(d0) else d0;
    if |d| % 4 == 1 || !(forall k :: 0 <= k < |d| ==> IsStdChar(d[k])) then None
    else Some(BinaryString(Unsextets(SextetValues(d))))
  }

  // ------------------------------------------------------------ the source's steps

  /** `(4 - n % 4) % 4`: the number of `=` appended. */
  function PaddingLength(n: nat): (p: nat)
    ensures p <= 3 && (n + p) % 4 == 0
  {
    (4 - n % 4) % 4
  }

  function Repeat(c: char, n: nat): (s: string)
    ensures |s| == n && forall i :: 0 <= i < n ==> s[i] == c
  {
    if n == 0 then [] else [c] + Repeat(c, n - 1)
  }

  /** `s + "=".repeat(padding)`. */
  function Padded(s: string): (r: string)
    ensures |r| % 4 == 0 && |s| <= |r| <= |s| + 3
    ensures r[..|s|] == s && forall i :: |s| <= i < |r| ==> r[i] == '='
  {
    s + Repeat('=', PaddingLength(|s|))
  }

  /** `s.replace(/from/g, to)` for a single character. */
  function ReplaceAll(s: string, from: char, to: char): (r: string)
    ensures |r| == |s|
    ensures forall i :: 0 <= i < |s| ==> r[i] == if s[i] == from then to else s[i]
  {
    if s == [] then [] else [if s[0] == from then to else s[0]] + ReplaceAll(s[1..], from, to)
  }

  /** `.replace(/\-/g, "+").replace(/_/g, "/")`. */
  function ToStandard(s: string): (r: string)
    ensures |r| == |s|
    ensures forall i :: 0 <= i < |r| ==> r[i] != '-' && r[i] != '_'
  {
    ReplaceAll(ReplaceAll(s, '-', '+'), '_', '/')
  }

  /** The padded text's length is a multiple of 4. */
  lemma PaddedLength(s: string)
    ensures |Padded(s)| % 4 == 0 && |s| <= |Padded(s)| <= |s| + 3
  {
  }

  /** Rewriting into the standard alphabet changes `-` into `+` and `_` into
      `/` and leaves every other character, and the length, alone. */
  lemma ToStandardPointwise(s: string)
    ensures |ToStandard(s)| == |s|
    ensures forall i :: 0 <= i < |s| ==>
      ToStandard(s)[i] == if s[i] == '-' then '+' else if s[i] == '_' then '/' else s[i]
  {
    var t := ReplaceAll(s, '-', '+');
    assert forall i :: 0 <= i < |s| ==> t[i] == if s[i] == '-' then '+' else s[i];
  }

  /** `urlBase64ToUint8Array(base64String)`. `ok` is false where `atob` throws. */
  method UrlBase64ToUint8Array(base64String: string) returns (ok: bool, out: array<Byte>)
    ensures ok <==> Atob(ToStandard(Padded(base64String))).Some?
    ensures ok ==> var raw := Atob(ToStandard(Padded(base64String))).value;
      out.Length == |raw| && forall i :: 0 <= i < |raw| ==> out[i] == raw[i] as int
    ensures !ok ==> out.Length == 0
  {
    var padding := Repeat('=', (4 - |base64String| % 4) % 4);
    assert base64String + padding == Padded(base64String);
    var base64 := ReplaceAll(ReplaceAll(base64String + padding, '-', '+'), '_', '/');
    assert base64 == ToStandard(Padded(base64String));
    var rawData := Atob(base64);
    if rawData.None? {
      ok := false;
      out := new Byte[0];
      return;
    }
    ok := true;
    out := CopyCharCodes(rawData.value);
  }

  /** The loop `outputArray[i] = rawData.charCodeAt(i)` over a binary string. */
  method CopyCharCodes(raw: string) returns (out: array<Byte>)
    requires forall i :: 0 <= i < |raw| ==> raw[i] as int < 256
    ensures out.Length == |raw| && forall i :: 0 <= i < |raw| ==> out[i] == raw[i] as int
  {
    out := new Byte[|raw|];
    for i := 0 to |raw|
      invariant forall k :: 0 <= k < i ==> out[k] == raw[k] as int
    {
      out[i] := raw[i] as int;
    }
  }

  // ------------------------------------------------------------ the round trip

  lemma DivMod16(q: int, r: int)
    requires 0 <= r < 16
    ensures (q * 16 + r) / 16 == q && (q * 16 + r) % 16 == r
  {
  }

  lemma DivMod4(q: int, r: int)
    requires 0 <= r < 4
    ensures (q * 4 + r) / 4 == q && (q * 4 + r) % 4 == r
  {
  }

  /** One group of three bytes comes back from its four 6-bit groups. */
  lemma GroupRoundTrip(b0: Byte, b1: Byte, b2: Byte)
    ensures Decode4(Encode3(b0, b1, b2)) == [b0, b1, b2]
  {
    DivMod16(b0 % 4, b1 / 16);
    DivMod4(b1 % 16, b2 / 64);
  }

  /** Every 3 bytes give 4 groups and a final 1 or 2 bytes give 2 or 3, so
      the number of groups is never 1 more than a multiple of 4. */
  lemma {:induction false} SextetsLength(b: seq<Byte>)
    ensures |Sextets(b)| == |b| / 3 * 4 + (if |b| % 3 == 0 then 0 else |b| % 3 + 1)
    ensures |Sextets(b)| % 4 != 1
  {
    if |b| >= 3 {
      SextetsLength(b[3..]);
    }
  }

  /** Decoding the 6-bit groups of b gives back b. */
  lemma {:induction false} UnsextetsSextets(b: seq<Byte>)
    ensures |Sextets(b)| % 4 != 1
    ensures Unsextets(Sextets(b)) == b
  {
    SextetsLength(b);
    var v := Sextets(b);
    if |b| >= 3 {
      var g := Encode3(b[0], b[1], b[2]);
      var rest := Sextets(b[3..]);
      UnsextetsSextets(b[3..]);
      GroupRoundTrip(b[0], b[1], b[2]);
      assert v == g + rest;
      assert v[..4] == g && v[4..] == rest;
      assert b == [b[0], b[1], b[2]] + b[3..];
    } else if |b| == 2 {
      var g := Encode3(b[0], b[1], 0);
      GroupRoundTrip(b[0], b[1], 0);
      assert v + [0] == g;
      assert b == [b[0], b[1], 0][..2];
    } else if |b| == 1 {
      var g := Encode3(b[0], 0, 0);
      GroupRoundTrip(b[0], 0, 0);
      assert v + [0, 0] == g;
      assert b == [b[0], 0, 0][..1];
    }
  }

  /** Padding a padding-free encoding and rewriting it into the standard
      alphabet gives the standard encoding followed by its padding. */
  lemma StandardForm(b: seq<Byte>)
    ensures ToStandard(Padded(UrlEncodeNoPad(b)))
      == StdText(Sextets(b)) + Repeat('=', PaddingLength(|Sextets(b)|))
  {
    var v := Sextets(b);
    var u := UrlEncodeNoPad(b);
    var e := StdText(v);
    var pad := Repeat('=', PaddingLength(|v|));
    ToStandardPointwise(Padded(u));
    var t := ToStandard(Padded(u));
    forall i | 0 <= i < |t| ensures t[i] == (e + pad)[i] {
      if i < |v| {
        assert Padded(u)[i] == u[i] == UrlChar(v[i]);
      } else {
        assert Padded(u)[i] == '=';
      }
    }
  }

  /** Dropping the padding a standard encoding of v carries leaves that encoding. */
  lemma DropPaddingStandard(v: seq<int>)
    requires AllSextets(v) && |v| % 4 != 1
    ensures DropPadding(StdText(v) + Repeat('=', PaddingLength(|v|))) == StdText(v)
  {
    var e := StdText(v);
    var p := PaddingLength(|v|);
    var data := e + Repeat('=', p);
    if p == 0 {
      assert data == e;
      if |e| > 0 { assert IsStdChar(e[|e| - 1]); }
    } else if p == 1 {
      assert IsStdChar(e[|e| - 1]);
      assert data[|data| - 2] == e[|e| - 1];
      assert data[..|data| - 1] == e;
    } else {
      assert p == 2;
      assert data[..|data| - 2] == e;
    }
  }

  /** `atob` of a text without white space whose padding is well placed. */
  lemma AtobAccepts(data: string, e: string)
    requires RemoveAsciiSpace(data) == data && |data| % 4 == 0 && DropPadding(data) == e
    requires |e| % 4 != 1 && forall k :: 0 <= k < |e| ==> IsStdChar(e[k])
    ensures Atob(data) == Some(BinaryString(Unsextets(SextetValues(e))))
  {
  }

  /** Reading back the standard text of 6-bit groups gives those groups. */
  lemma SextetValuesStdText(v: seq<int>)
    requires AllSextets(v)
    ensures SextetValues(StdText(v)) == v
  {
  }

  /** `atob` of a padded standard encoding gives back the bytes. */
  lemma AtobStandard(b: seq<Byte>)
    ensures Atob(StdText(Sextets(b)) + Repeat('=', PaddingLength(|Sextets(b)|))) == Some(BinaryString(b))
  {
    var v := Sextets(b);
    var e := StdText(v);
    var data := e + Repeat('=', PaddingLength(|v|));
    UnsextetsSextets(b);
    NoAsciiSpace(data);
    DropPaddingStandard(v);
    SextetValuesStdText(v);
    AtobAccepts(data, e);
  }

  lemma {:induction false} NoAsciiSpace(s: string)
    requires forall k :: 0 <= k < |s| ==> IsStdChar(s[k]) || s[k] == '='
    ensures RemoveAsciiSpace(s) == s
  {
    if s != [] {
      NoAsciiSpace(s[1..]);
      assert s == [s[0]] + s[1..];
    }
  }

  /** The round trip: for every byte string, the function decodes the
      padding-free base64url text of those bytes back into them. */
  lemma UrlBase64RoundTrip(b: seq<Byte>)
    ensures Atob(ToStandard(Padded(UrlEncodeNoPad(b)))) == Some(BinaryString(b))
  {
    StandardForm(b);
    AtobStandard(b);
  }
}
