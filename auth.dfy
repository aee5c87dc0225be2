/**
 * Admin authentication: credentials from the environment with built-in fallbacks, the login
 * check, and the session token, which is the Base64 text (section 4 of RFC 4648) of the UTF-8
 * bytes (section 3 of RFC 3629) of "username:password". Both codecs come with strict decoders
 * that invert them, so a token names exactly one "username:password" text.
 */
module Auth {
  import opened Wrappers
  import opened Text

  const FallbackUser: string := "admin"
  const FallbackPass: string := "sspl@secure"

  datatype Credentials = Credentials(username: string, password: string)

  /** `value || fallback` for an environment variable: unset and empty both fall back. */
  function OrFallback(v: Option<string>, fallback: string): (r: string)
    ensures v.Some? && v.value != "" ==> r == v.value
    ensures v.None? || v.value == "" ==> r == fallback
    ensures fallback != "" ==> r != ""
  {
    if v.Some? && v.value != "" then v.value else fallback
  }

  /** `getCredentials`: `envUser` and `envPass` are `ADMIN_USERNAME` and `ADMIN_PASSWORD`. */
  function GetCredentials(envUser: Option<string>, envPass: Option<string>): (c: Credentials)
    ensures c.username != "" && c.password != ""
    ensures envUser.Some? && envUser.value != "" ==> c.username == envUser.value
    ensures envPass.Some? && envPass.value != "" ==> c.password == envPass.value
    ensures envUser.None? || envUser.value == "" ==> c.username == FallbackUser
    ensures envPass.None? || envPass.value == "" ==> c.password == FallbackPass
  {
    Credentials(OrFallback(envUser, FallbackUser), OrFallback(envPass, FallbackPass))
  }

  /**
   * `credentialsAreValid`: both inputs present and non-empty, the usernames equal once trimmed,
   * the passwords equal as typed.
   */
  function CredentialsAreValid(inputUser: Option<string>, inputPass: Option<string>,
                               envUser: Option<string>, envPass: Option<string>): (r: bool)
    ensures r ==> inputUser.Some? && inputUser.value != "" && inputPass.Some? && inputPass.value != ""
    ensures r ==> inputPass.value == GetCredentials(envUser, envPass).password
    ensures r ==> Trim(inputUser.value) == Trim(GetCredentials(envUser, envPass).username)
    ensures (inputUser.Some? && inputUser.value != "" && inputPass.Some? && inputPass.value != ""
      && Trim(inputUser.value) == Trim(GetCredentials(envUser, envPass).username)
      && inputPass.value == GetCredentials(envUser, envPass).password) ==> r
  {
    if inputUser.None? || inputUser.value == "" || inputPass.None? || inputPass.value == "" then false
    else
      var c := GetCredentials(envUser, envPass);
      Trim(inputUser.value) == Trim(c.username) && inputPass.value == c.password
  }

  /** Appending a space to a text before trimming its start only appends it to the result. */
  lemma {:induction false} TrimStartAppendSpace(u: string)
    ensures TrimStart(u + " ") == (if TrimStart(u) == "" then "" else TrimStart(u) + " ")
  {
    if u == [] {
      assert TrimStart(" ") == TrimStart("");
    } else {
      assert (u + " ")[0] == u[0];
      if IsSpace(u[0]) {
        assert (u + " ")[1..] == u[1..] + " ";
        TrimStartAppendSpace(u[1..]);
      }
    }
  }

  /** A trailing space is trimmed away from the end. */
  lemma TrimEndAppendSpace(t: string)
    ensures TrimEnd(t + " ") == TrimEnd(t)
  {
    assert (t + " ")[..|t|] == t;
  }

  /** Trimming ignores one space on either side. */
  lemma TrimPadded(user: string)
    ensures Trim(" " + user + " ") == Trim(user)
  {
    var padded := " " + user + " ";
    assert padded[1..] == user + " ";
    assert TrimStart(padded) == TrimStart(user + " ");
    TrimStartAppendSpace(user);
    var t := TrimStart(user);
    if t != "" {
      TrimEndAppendSpace(t);
    }
  }

  /** Spaces around a typed username do not change the answer. */
  lemma PaddedUsernameAccepted(user: string, inputPass: Option<string>,
                               envUser: Option<string>, envPass: Option<string>)
    requires user != ""
    ensures CredentialsAreValid(Some(" " + user + " "), inputPass, envUser, envPass)
      == CredentialsAreValid(Some(user), inputPass, envUser, envPass)
  {
    TrimPadded(user);
  }

  /** The password is compared as typed: an accepted password with a trailing space is refused. */
  lemma PasswordNotTrimmed(inputUser: Option<string>, pass: string,
                           envUser: Option<string>, envPass: Option<string>)
    requires CredentialsAreValid(inputUser, Some(pass), envUser, envPass)
    ensures !CredentialsAreValid(inputUser, Some(pass + " "), envUser, envPass)
  {
    assert |pass + " "| != |pass|;
  }

  /**
   * The configured credentials, typed as they are, always log in; with neither variable set
   * they are "admin" and "sspl@secure".
   */
  lemma ConfiguredCredentialsLogIn(envUser: Option<string>, envPass: Option<string>)
    ensures var c := GetCredentials(envUser, envPass);
      CredentialsAreValid(Some(c.username), Some(c.password), envUser, envPass)
    ensures envUser.None? && envPass.None? ==> GetCredentials(envUser, envPass) == Credentials(FallbackUser, FallbackPass)
  {
  }

  // ---------------------------------------------------------------- UTF-8

  type Byte = b: int | 0 <= b < 256

  /** A continuation byte, 10xxxxxx. */
  predicate IsCont(b: Byte) { 0x80 <= b < 0xC0 }

  /** The bytes of one code point: one byte below U+0080, then two, three or four. */
  function EncodeChar(c: char): (bs: seq<Byte>)
    ensures 1 <= |bs| <= 4
    ensures |bs| == 1 <==> (c as int) < 0x80
  {
    var n := c as int;
    if n < 0x80 then [n]
    else if n < 0x800 then [0xC0 + n / 64, 0x80 + n % 64]
    else if n < 0x10000 then [0xE0 + n / 4096, 0x80 + n / 64 % 64, 0x80 + n % 64]
    else [0xF0 + n / 0x40000, 0x80 + n / 4096 % 64, 0x80 + n / 64 % 64, 0x80 + n % 64]
  }

  /** The UTF-8 bytes of a text, as `Buffer.from(raw, "utf-8")` produces them. */
  function Utf8(s: string): (bs: seq<Byte>)
    ensures |s| <= |bs| <= 4 * |s|
  {
    if s == [] then [] else EncodeChar(s[0]) + Utf8(s[1..])
  }

  /** The code point of a two-, three- or four-byte form: the payload bits, high to low. */
  function Scalar2(b0: Byte, b1: Byte): int
    requires 0xC0 <= b0 < 0xE0 && IsCont(b1)
  {
    (b0 as int - 0xC0) * 64 + (b1 as int - 0x80)
  }

  function Scalar3(b0: Byte, b1: Byte, b2: Byte): int
    requires 0xE0 <= b0 < 0xF0 && IsCont(b1) && IsCont(b2)
  {
    (b0 as int - 0xE0) * 4096 + (b1 as int - 0x80) * 64 + (b2 as int - 0x80)
  }

  function Scalar4(b0: Byte, b1: Byte, b2: Byte, b3: Byte): int
    requires 0xF0 <= b0 < 0xF8 && IsCont(b1) && IsCont(b2) && IsCont(b3)
  {
    (b0 as int - 0xF0) * 0x40000 + (b1 as int - 0x80) * 4096 + (b2 as int - 0x80) * 64 + (b3 as int - 0x80)
  }

  /**
   * The code point at the front of `bs` and its length in bytes, refusing malformed and
   * overlong forms and surrogates.
   */
  function DecodeChar(bs: seq<Byte>): (r: Option<(char, nat)>)
    ensures r.Some? ==> 1 <= r.value.1 <= |bs|
  {
    if bs == [] then None
    else if bs[0] < 0x80 then Some((bs[0] as char, 1))
    else if 0xC0 <= bs[0] < 0xE0 && |bs| >= 2 && IsCont(bs[1]) then
      var n := Scalar2(bs[0], bs[1]);
      if 0x80 <= n then Some((n as char, 2)) else None
    else if 0xE0 <= bs[0] < 0xF0 && |bs| >= 3 && IsCont(bs[1]) && IsCont(bs[2]) then
      var n := Scalar3(bs[0], bs[1], bs[2]);
      if 0x800 <= n && (n < 0xD800 || 0xE000 <= n) then Some((n as char, 3)) else None
    else if 0xF0 <= bs[0] < 0xF8 && |bs| >= 4 && IsCont(bs[1]) && IsCont(bs[2]) && IsCont(bs[3]) then
      var n := Scalar4(bs[0], bs[1], bs[2], bs[3]);
      if 0x10000 <= n < 0x110000 then Some((n as char, 4)) else None
    else None
  }

  /** Strict UTF-8 decoding; `None` for any byte sequence `Utf8` cannot produce. */
  function DecodeUtf8(bs: seq<Byte>): (r: Option<string>)
    decreases |bs|
  {
    if bs == [] then Some([])
    else
      match DecodeChar(bs)
      case None => None
      case Some((c, k)) =>
        match DecodeUtf8(bs[k..])
        case None => None
        case Some(rest) => Some([c] + rest)
  }

  /** The forms `EncodeChar` writes carry the code point's bits. */
  lemma Payload2(n: int)
    requires 0x80 <= n < 0x800
    ensures 0xC0 <= 0xC0 + n / 64 < 0xE0 && IsCont(0x80 + n % 64)
    ensures Scalar2(0xC0 + n / 64, 0x80 + n % 64) == n
  {
  }

  lemma Payload3(n: int)
    requires 0x800 <= n < 0x10000
    ensures 0xE0 <= 0xE0 + n / 4096 < 0xF0 && IsCont(0x80 + n / 64 % 64) && IsCont(0x80 + n % 64)
    ensures Scalar3(0xE0 + n / 4096, 0x80 + n / 64 % 64, 0x80 + n % 64) == n
  {
  }

  lemma Payload4(n: int)
    requires 0x10000 <= n < 0x110000
    ensures 0xF0 <= 0xF0 + n / 0x40000 < 0xF8 && IsCont(0x80 + n / 4096 % 64)
    ensures IsCont(0x80 + n / 64 % 64) && IsCont(0x80 + n % 64)
    ensures Scalar4(0xF0 + n / 0x40000, 0x80 + n / 4096 % 64, 0x80 + n / 64 % 64, 0x80 + n % 64) == n
  {
    assert n / 4096 == n / 64 / 64;
    assert n / 0x40000 == n / 4096 / 64;
    assert n == n / 64 * 64 + n % 64;
    assert n / 64 == n / 4096 * 64 + n / 64 % 64;
    assert n / 4096 == n / 0x40000 * 64 + n / 4096 % 64;
  }

  /** Peeling the low six bits off a number. */
  lemma DivMod64(q: int, r: int)
    requires 0 <= r < 64
    ensures (q * 64 + r) / 64 == q && (q * 64 + r) % 64 == r
  {
  }

  /** The bits of a decoded code point are the payloads of the bytes it came from. */
  lemma Unpack2(b0: Byte, b1: Byte)
    requires 0xC0 <= b0 < 0xE0 && IsCont(b1)
    ensures Scalar2(b0, b1) / 64 == b0 - 0xC0 && Scalar2(b0, b1) % 64 == b1 - 0x80
  {
  }

  lemma Unpack3(b0: Byte, b1: Byte, b2: Byte)
    requires 0xE0 <= b0 < 0xF0 && IsCont(b1) && IsCont(b2)
    ensures var n := Scalar3(b0, b1, b2); n / 4096 == b0 - 0xE0 && n / 64 % 64 == b1 - 0x80 && n % 64 == b2 - 0x80
  {
    var n := Scalar3(b0, b1, b2);
    var x, y, z := b0 - 0xE0, b1 - 0x80, b2 - 0x80;
    assert n == (x * 64 + y) * 64 + z;
    DivMod64(x * 64 + y, z);
    DivMod64(x, y);
  }

  lemma Unpack4(b0: Byte, b1: Byte, b2: Byte, b3: Byte)
    requires 0xF0 <= b0 < 0xF8 && IsCont(b1) && IsCont(b2) && IsCont(b3)
    ensures var n := Scalar4(b0, b1, b2, b3); n / 0x40000 == b0 - 0xF0 && n / 4096 % 64 == b1 - 0x80
    ensures var n := Scalar4(b0, b1, b2, b3); n / 64 % 64 == b2 - 0x80 && n % 64 == b3 - 0x80
  {
    var n := Scalar4(b0, b1, b2, b3);
    var w, x, y, z := b0 - 0xF0, b1 - 0x80, b2 - 0x80, b3 - 0x80;
    assert n == ((w * 64 + x) * 64 + y) * 64 + z;
    DivMod64((w * 64 + x) * 64 + y, z);
    DivMod64(w * 64 + x, y);
    DivMod64(w, x);
    assert n / 4096 == n / 64 / 64;
    assert n / 0x40000 == n / 4096 / 64;
  }

  /** Decoding the bytes of one code point gives it back, whatever follows. */
  lemma DecodeEncodeChar(c: char, rest: seq<Byte>)
    ensures DecodeChar(EncodeChar(c) + rest) == Some((c, |EncodeChar(c)|))
  {
    var n := c as int;
    var e := EncodeChar(c);
    var bs := e + rest;
    assert bs[..|e|] == e;
    if 0x80 <= n < 0x800 {
      Payload2(n);
    } else if 0x800 <= n < 0x10000 {
      Payload3(n);
    } else if 0x10000 <= n {
      Payload4(n);
    }
  }

  /** What `DecodeChar` reads is exactly the encoding of the code point it returns. */
  lemma EncodeDecodeChar(bs: seq<Byte>)
    requires DecodeChar(bs).Some?
    ensures bs[..DecodeChar(bs).value.1] == EncodeChar(DecodeChar(bs).value.0)
  {
    var k := DecodeChar(bs).value.1;
    if k == 2 {
      Unpack2(bs[0], bs[1]);
    } else if k == 3 {
      Unpack3(bs[0], bs[1], bs[2]);
    } else if k == 4 {
      Unpack4(bs[0], bs[1], bs[2], bs[3]);
    }
  }

  /** Decoding the UTF-8 bytes of a text gives the text back. */
  lemma {:induction false} Utf8RoundTrip(s: string)
    ensures DecodeUtf8(Utf8(s)) == Some(s)
  {
    if s != [] {
      var e := EncodeChar(s[0]);
      var bs := Utf8(s);
      assert bs == e + Utf8(s[1..]);
      DecodeEncodeChar(s[0], Utf8(s[1..]));
      assert bs[|e|..] == Utf8(s[1..]);
      Utf8RoundTrip(s[1..]);
      assert [s[0]] + s[1..] == s;
    }
  }

  /** Bytes that decode are the UTF-8 bytes of what they decode to. */
  lemma {:induction false} Utf8OfDecoded(bs: seq<Byte>)
    requires DecodeUtf8(bs).Some?
    ensures Utf8(DecodeUtf8(bs).value) == bs
    decreases |bs|
  {
    if bs != [] {
      Utf8OfDecoded(bs[DecodeChar(bs).value.1..]);
      Utf8OfDecodedStep(bs);
    }
  }

  /** The step of `Utf8OfDecoded` for the first code point. */
  lemma Utf8OfDecodedStep(bs: seq<Byte>)
    requires bs != [] && DecodeUtf8(bs).Some?
    requires Utf8(DecodeUtf8(bs[DecodeChar(bs).value.1..]).value) == bs[DecodeChar(bs).value.1..]
    ensures Utf8(DecodeUtf8(bs).value) == bs
  {
    var c, k := DecodeChar(bs).value.0, DecodeChar(bs).value.1;
    EncodeDecodeChar(bs);
    DecodeUtf8Front(bs);
    Utf8Front(c, DecodeUtf8(bs[k..]).value);
    BytesSplitAt(bs, k);
  }

  /** A decodable text is its first code point followed by the decoding of the rest. */
  lemma DecodeUtf8Front(bs: seq<Byte>)
    requires bs != [] && DecodeUtf8(bs).Some?
    ensures DecodeUtf8(bs[DecodeChar(bs).value.1..]).Some?
    ensures DecodeUtf8(bs).value == [DecodeChar(bs).value.0] + DecodeUtf8(bs[DecodeChar(bs).value.1..]).value
  {
  }

  lemma Utf8Front(c: char, rest: string)
    ensures Utf8([c] + rest) == EncodeChar(c) + Utf8(rest)
  {
    assert ([c] + rest)[0] == c && ([c] + rest)[1..] == rest;
  }

  lemma BytesSplitAt(bs: seq<Byte>, k: nat)
    requires k <= |bs|
    ensures bs == bs[..k] + bs[k..]
  {
  }

  /** Different texts have different UTF-8 bytes. */
  lemma Utf8Injective(s: string, t: string)
    requires Utf8(s) == Utf8(t)
    ensures s == t
  {
    Utf8RoundTrip(s);
    Utf8RoundTrip(t);
  }

  /** UTF-8 encodes a text character by character, so it splits along concatenation. */
  lemma {:induction false} Utf8Append(a: string, b: string)
    ensures Utf8(a + b) == Utf8(a) + Utf8(b)
  {
    if a != [] {
      assert (a + b)[0] == a[0] && (a + b)[1..] == a[1..] + b;
      Utf8Append(a[1..], b);
    } else {
      assert a + b == b;
    }
  }

  /** A text of ASCII characters has one byte per character, its code. */
  lemma {:induction false} Utf8OfAscii(s: string)
    requires forall i :: 0 <= i < |s| ==> (s[i] as int) < 0x80
    ensures |Utf8(s)| == |s|
    ensures forall i :: 0 <= i < |s| ==> Utf8(s)[i] == s[i] as int
  {
    if s != [] {
      Utf8OfAscii(s[1..]);
      assert Utf8(s) == [s[0] as int] + Utf8(s[1..]);
    }
  }

  // ---------------------------------------------------------------- Base64

  /** Six bits, the value of one Base64 character. */
  type Sextet = i: int | 0 <= i < 64

  /** The Base64 alphabet of section 4 of RFC 4648. */
  function B64Char(i: Sextet): (c: char)
    ensures c != '='
  {
    if i < 26 then ('A' as int + i) as char
    else if i < 52 then ('a' as int + i - 26) as char
    else if i < 62 then ('0' as int + i - 52) as char
    else if i == 62 then '+'
    else '/'
  }

  /** The value of an alphabet character; `None` for '=' and every other character. */
  function B64Index(c: char): (r: Option<Sextet>)
    ensures r.Some? ==> B64Char(r.value) == c
    ensures c == '=' ==> r.None?
  {
    if 'A' <= c <= 'Z' then Some(c as int - 'A' as int)
    else if 'a' <= c <= 'z' then Some(c as int - 'a' as int + 26)
    else if '0' <= c <= '9' then Some(c as int - '0' as int + 52)
    else if c == '+' then Some(62)
    else if c == '/' then Some(63)
    else None
  }

  lemma B64IndexOfChar(i: Sextet)
    ensures B64Index(B64Char(i)) == Some(i)
  {
  }

  /** The four sextets of a group of three bytes, high bits first. */
  function Sextet0(b0: Byte): Sextet { b0 / 4 }
  function Sextet1(b0: Byte, b1: Byte): Sextet { b0 % 4 * 16 + b1 / 16 }
  function Sextet2(b1: Byte, b2: Byte): Sextet { b1 % 16 * 4 + b2 / 64 }
  function Sextet3(b2: Byte): Sextet { b2 % 64 }

  /** The three bytes of a group of four sextets. */
  function Byte0(i0: Sextet, i1: Sextet): Byte { i0 * 4 + i1 / 16 }
  function Byte1(i1: Sextet, i2: Sextet): Byte { i1 % 16 * 16 + i2 / 4 }
  function Byte2(i2: Sextet, i3: Sextet): Byte { i2 % 4 * 64 + i3 }

  /** Splitting bytes into sextets and joining them back is the identity, both ways. */
  lemma BytesOfSextets(b0: Byte, b1: Byte, b2: Byte)
    ensures Byte0(Sextet0(b0), Sextet1(b0, b1)) == b0
    ensures Byte1(Sextet1(b0, b1), Sextet2(b1, b2)) == b1
    ensures Byte2(Sextet2(b1, b2), Sextet3(b2)) == b2
  {
  }

  lemma SextetsOfBytes(i0: Sextet, i1: Sextet, i2: Sextet, i3: Sextet)
    ensures Sextet0(Byte0(i0, i1)) == i0
    ensures Sextet1(Byte0(i0, i1), Byte1(i1, i2)) == i1
    ensures Sextet2(Byte1(i1, i2), Byte2(i2, i3)) == i2
    ensures Sextet3(Byte2(i2, i3)) == i3
  {
  }

  /** In a padded group, the sextets are recovered when their unused bits are zero. */
  lemma SextetsOfOneByte(i0: Sextet, i1: Sextet)
    requires i1 % 16 == 0
    ensures Sextet0(Byte0(i0, i1)) == i0 && Sextet1(Byte0(i0, i1), 0) == i1
  {
  }

  lemma SextetsOfTwoBytes(i0: Sextet, i1: Sextet, i2: Sextet)
    requires i2 % 4 == 0
    ensures Sextet0(Byte0(i0, i1)) == i0 && Sextet1(Byte0(i0, i1), Byte1(i1, i2)) == i1
    ensures Sextet2(Byte1(i1, i2), 0) == i2
  {
  }

  /** The four characters of a whole group of three bytes. */
  function Quad(b0: Byte, b1: Byte, b2: Byte): (q: string)
    ensures |q| == 4
  {
    [B64Char(Sextet0(b0)), B64Char(Sextet1(b0, b1)), B64Char(Sextet2(b1, b2)), B64Char(Sextet3(b2))]
  }

  /** A last group of one byte: two characters and two pads. */
  function Pad2(b0: Byte): (q: string)
    ensures |q| == 4
  {
    [B64Char(Sextet0(b0)), B64Char(Sextet1(b0, 0)), '=', '=']
  }

  /** A last group of two bytes: three characters and one pad. */
  function Pad1(b0: Byte, b1: Byte): (q: string)
    ensures |q| == 4
  {
    [B64Char(Sextet0(b0)), B64Char(Sextet1(b0, b1)), B64Char(Sextet2(b1, 0)), '=']
  }

  /**
   * `Buffer.toString("base64")`: four characters per group of three bytes, a short last group
   * filled with zero bits and padded with '='.
   */
  function Base64(bs: seq<Byte>): (s: string)
    decreases |bs|
  {
    if |bs| == 0 then ""
    else if |bs| == 1 then Pad2(bs[0])
    else if |bs| == 2 then Pad1(bs[0], bs[1])
    else Quad(bs[0], bs[1], bs[2]) + Base64(bs[3..])
  }

  /** Four characters for every started group of three bytes. */
  lemma {:induction false} Base64Length(bs: seq<Byte>)
    ensures |Base64(bs)| == 4 * ((|bs| + 2) / 3)
    ensures |Base64(bs)| % 4 == 0 && (bs != [] ==> |Base64(bs)| >= 4)
    decreases |bs|
  {
    if |bs| >= 3 {
      Base64Length(bs[3..]);
      FirstGroup(bs);
      assert |Base64(bs)| == 4 + |Base64(bs[3..])|;
      assert (|bs| + 2) / 3 == (|bs[3..]| + 2) / 3 + 1;
    } else {
      ShortLength(bs);
    }
  }

  lemma ShortLength(bs: seq<Byte>)
    requires |bs| < 3
    ensures |Base64(bs)| == if bs == [] then 0 else 4
  {
  }

  /**
   * Strict Base64 decoding: padding only at the very end, and the unused bits of a padded group
   * must be zero, so only texts `Base64` can produce decode.
   */
  function Base64Decode(s: string): (r: Option<seq<Byte>>)
    decreases |s|
  {
    if s == [] then Some([])
    else if |s| < 4 then None
    else
      var last := |s| == 4;
      var x0, x1, x2, x3 := B64Index(s[0]), B64Index(s[1]), B64Index(s[2]), B64Index(s[3]);
      if x0.None? || x1.None? then None
      else if last && s[2] == '=' && s[3] == '=' then
        if x1.value % 16 == 0 then Some([Byte0(x0.value, x1.value)]) else None
      else if x2.None? then None
      else if last && s[3] == '=' then
        if x2.value % 4 == 0 then Some([Byte0(x0.value, x1.value), Byte1(x1.value, x2.value)]) else None
      else if x3.None? then None
      else
        match Base64Decode(s[4..])
        case None => None
        case Some(rest) =>
          Some([Byte0(x0.value, x1.value), Byte1(x1.value, x2.value), Byte2(x2.value, x3.value)] + rest)
  }

  /** Four alphabet characters decode to the three bytes their sextets make, then the rest. */
  lemma DecodeSextets(i0: Sextet, i1: Sextet, i2: Sextet, i3: Sextet, t: string)
    requires Base64Decode(t).Some?
    ensures Base64Decode([B64Char(i0), B64Char(i1), B64Char(i2), B64Char(i3)] + t)
      == Some([Byte0(i0, i1), Byte1(i1, i2), Byte2(i2, i3)] + Base64Decode(t).value)
  {
    B64IndexOfChar(i0);
    B64IndexOfChar(i1);
    B64IndexOfChar(i2);
    B64IndexOfChar(i3);
    assert ([B64Char(i0), B64Char(i1), B64Char(i2), B64Char(i3)] + t)[4..] == t;
  }

  /** Two characters and two pads decode to one byte when the low bits are zero. */
  lemma DecodeSextetsPad2(i0: Sextet, i1: Sextet)
    requires i1 % 16 == 0
    ensures Base64Decode([B64Char(i0), B64Char(i1), '=', '=']) == Some([Byte0(i0, i1)])
  {
    B64IndexOfChar(i0);
    B64IndexOfChar(i1);
  }

  /** Three characters and a pad decode to two bytes when the low bits are zero. */
  lemma DecodeSextetsPad1(i0: Sextet, i1: Sextet, i2: Sextet)
    requires i2 % 4 == 0
    ensures Base64Decode([B64Char(i0), B64Char(i1), B64Char(i2), '=']) == Some([Byte0(i0, i1), Byte1(i1, i2)])
  {
    B64IndexOfChar(i0);
    B64IndexOfChar(i1);
    B64IndexOfChar(i2);
  }

  /** A whole group decodes to its three bytes, ahead of whatever the rest decodes to. */
  lemma DecodeQuad(b0: Byte, b1: Byte, b2: Byte, t: string)
    requires Base64Decode(t).Some?
    ensures Base64Decode(Quad(b0, b1, b2) + t) == Some([b0, b1, b2] + Base64Decode(t).value)
  {
    DecodeSextets(Sextet0(b0), Sextet1(b0, b1), Sextet2(b1, b2), Sextet3(b2), t);
    BytesOfSextets(b0, b1, b2);
  }

  /** A padded group of one byte decodes to that byte. */
  lemma DecodeOneByte(b0: Byte)
    ensures Base64Decode(Pad2(b0)) == Some([b0])
  {
    assert Sextet1(b0, 0) % 16 == 0;
    DecodeSextetsPad2(Sextet0(b0), Sextet1(b0, 0));
    BytesOfSextets(b0, 0, 0);
  }

  /** A padded group of two bytes decodes to those bytes. */
  lemma DecodeTwoBytes(b0: Byte, b1: Byte)
    ensures Base64Decode(Pad1(b0, b1)) == Some([b0, b1])
  {
    assert Sextet2(b1, 0) % 4 == 0;
    DecodeSextetsPad1(Sextet0(b0), Sextet1(b0, b1), Sextet2(b1, 0));
    BytesOfSextets(b0, b1, 0);
  }

  /** Decoding the Base64 text of some bytes gives the bytes back. */
  lemma {:induction false} Base64RoundTrip(bs: seq<Byte>)
    ensures Base64Decode(Base64(bs)) == Some(bs)
    decreases |bs|
  {
    if |bs| == 1 {
      RoundTripOne(bs);
    } else if |bs| == 2 {
      RoundTripTwo(bs);
    } else if |bs| >= 3 {
      Base64RoundTrip(bs[3..]);
      RoundTripGroup(bs);
    }
  }

  lemma RoundTripOne(bs: seq<Byte>)
    requires |bs| == 1
    ensures Base64Decode(Base64(bs)) == Some(bs)
  {
    DecodeOneByte(bs[0]);
    assert bs == [bs[0]];
  }

  lemma RoundTripTwo(bs: seq<Byte>)
    requires |bs| == 2
    ensures Base64Decode(Base64(bs)) == Some(bs)
  {
    DecodeTwoBytes(bs[0], bs[1]);
    assert bs == [bs[0], bs[1]];
  }

  /** The step of `Base64RoundTrip` for a whole first group. */
  lemma RoundTripGroup(bs: seq<Byte>)
    requires |bs| >= 3 && Base64Decode(Base64(bs[3..])) == Some(bs[3..])
    ensures Base64Decode(Base64(bs)) == Some(bs)
  {
    GroupSplit(bs);
    DecodeQuad(bs[0], bs[1], bs[2], Base64(bs[3..]));
  }

  /** A text of three bytes or more starts with a whole group. */
  lemma GroupSplit(bs: seq<Byte>)
    requires |bs| >= 3
    ensures Base64(bs) == Quad(bs[0], bs[1], bs[2]) + Base64(bs[3..])
    ensures bs == [bs[0], bs[1], bs[2]] + bs[3..]
  {
    FirstGroup(bs);
    BytesSplit(bs);
  }

  lemma FirstGroup(bs: seq<Byte>)
    requires |bs| >= 3
    ensures Base64(bs) == Quad(bs[0], bs[1], bs[2]) + Base64(bs[3..])
  {
  }

  lemma BytesSplit(bs: seq<Byte>)
    requires |bs| >= 3
    ensures bs == [bs[0], bs[1], bs[2]] + bs[3..]
  {
  }

  /** A text that decodes is the Base64 text of what it decodes to. */
  lemma {:induction false} Base64OfDecoded(s: string)
    requires Base64Decode(s).Some?
    ensures Base64(Base64Decode(s).value) == s
    decreases |s|
  {
    if s != [] {
      var i0, i1 := B64Index(s[0]).value, B64Index(s[1]).value;
      var bs := Base64Decode(s).value;
      if |s| == 4 && s[2] == '=' && s[3] == '=' {
        assert bs == [Byte0(i0, i1)];
        SextetsOfOneByte(i0, i1);
      } else {
        var i2 := B64Index(s[2]).value;
        if |s| == 4 && s[3] == '=' {
          assert bs == [Byte0(i0, i1), Byte1(i1, i2)];
          SextetsOfTwoBytes(i0, i1, i2);
        } else {
          var i3 := B64Index(s[3]).value;
          var rest := Base64Decode(s[4..]).value;
          assert bs == [Byte0(i0, i1), Byte1(i1, i2), Byte2(i2, i3)] + rest;
          assert bs[3..] == rest;
          SextetsOfBytes(i0, i1, i2, i3);
          Base64OfDecoded(s[4..]);
          assert s == s[..4] + s[4..];
        }
      }
    }
  }

  /** Different byte sequences have different Base64 texts. */
  lemma Base64Injective(a: seq<Byte>, b: seq<Byte>)
    requires Base64(a) == Base64(b)
    ensures a == b
  {
    Base64RoundTrip(a);
    Base64RoundTrip(b);
  }

  // ---------------------------------------------------------------- session token

  /** The text the token encodes. */
  function Joined(c: Credentials): string {
    c.username + ":" + c.password
  }

  /** The token of a pair of credentials: Base64 of the UTF-8 bytes of "username:password". */
  function TokenOf(c: Credentials): (t: string)
    ensures |t| % 4 == 0 && t != ""
  {
    var bs := Utf8(Joined(c));
    Base64Length(bs);
    Base64(bs)
  }

  /** `computeSessionToken`. */
  function SessionToken(envUser: Option<string>, envPass: Option<string>): string {
    TokenOf(GetCredentials(envUser, envPass))
  }

  /**
   * A text is the session token exactly when it decodes, as Base64 and then as UTF-8, to
   * "username:password".
   */
  lemma TokenIffDecodesToCredentials(t: string, envUser: Option<string>, envPass: Option<string>)
    ensures (t == SessionToken(envUser, envPass)) <==> (Base64Decode(t).Some?
      && DecodeUtf8(Base64Decode(t).value) == Some(Joined(GetCredentials(envUser, envPass))))
  {
    var joined := Joined(GetCredentials(envUser, envPass));
    if t == SessionToken(envUser, envPass) {
      Base64RoundTrip(Utf8(joined));
      Utf8RoundTrip(joined);
    }
    if Base64Decode(t).Some? && DecodeUtf8(Base64Decode(t).value) == Some(joined) {
      Base64OfDecoded(t);
      Utf8OfDecoded(Base64Decode(t).value);
    }
  }

  /** Two configurations share a token exactly when their "username:password" texts agree. */
  lemma SameTokenIffSameJoined(u1: Option<string>, p1: Option<string>, u2: Option<string>, p2: Option<string>)
    ensures (SessionToken(u1, p1) == SessionToken(u2, p2))
      <==> (Joined(GetCredentials(u1, p1)) == Joined(GetCredentials(u2, p2)))
  {
    if SessionToken(u1, p1) == SessionToken(u2, p2) {
      Base64Injective(Utf8(Joined(GetCredentials(u1, p1))), Utf8(Joined(GetCredentials(u2, p2))));
      Utf8Injective(Joined(GetCredentials(u1, p1)), Joined(GetCredentials(u2, p2)));
    }
  }

  /** The ':' separator is not escaped: "a:b" with "c" and "a" with "b:c" share one token. */
  lemma ColonInCredentialsCollides()
    ensures SessionToken(Some("a:b"), Some("c")) == SessionToken(Some("a"), Some("b:c"))
  {
    assert Joined(GetCredentials(Some("a:b"), Some("c"))) == "a:b:c";
    assert Joined(GetCredentials(Some("a"), Some("b:c"))) == "a:b:c";
  }

  /** A known answer: the token for user "a" and password "b" is "YTpi", the Base64 text of "a:b". */
  lemma ShortToken()
    ensures SessionToken(Some("a"), Some("b")) == "YTpi"
  {
    assert Joined(GetCredentials(Some("a"), Some("b"))) == "a:b";
    assert Utf8("a:b") == [97, 58, 98];
    assert Base64([97, 58, 98]) == Quad(97, 58, 98) + Base64([]);
  }
}
